/** libev's relative timers (ev.c: ev_timer_start, ev_timer_stop, ev_timer_again, timers_reify,
    timers_reschedule, feed_reverse and feed_reverse_done). */
module Timers {
  import opened Heap
  import opened Pending

  const EV_TIMER: Events := {8}

  /** The active timers and the times at which they expire. */
  type Schedule = set<Anhe>

  /** pri_adjust: force a priority into range. */
  function Clamp(pri: int): (p: int)
    ensures EV_MINPRI <= p <= EV_MAXPRI
  {
    if pri < EV_MINPRI then EV_MINPRI else if pri > EV_MAXPRI then EV_MAXPRI else pri
  }

  // ----- changes of the heap as an array -----

  /** A new last element of a heap can only move up. */
  lemma AppendElement(a: seq<Anhe>, b: seq<Anhe>, cnt: nat, e: Anhe)
    requires cnt + HEAP0 <= |a| && IsHeap(a, cnt) && Distinct(a, cnt) && e.w !in WatchersOf(a, cnt)
    requires cnt + HEAP0 < |b| && b[cnt + HEAP0] == e && forall i :: 0 <= i < cnt + HEAP0 ==> b[i] == a[i]
    ensures UpReady(b, cnt + 1, cnt + HEAP0) && Distinct(b, cnt + 1)
    ensures Elements(b, cnt + 1) == Elements(a, cnt) + {e}
    ensures WatchersOf(b, cnt + 1) == WatchersOf(a, cnt) + {e.w}
  {
    forall i | Within(i, cnt) ensures Ordered(b, cnt, i) {
      assert Ordered(a, cnt, i);
    }
    ExtendHeap(b, cnt, cnt + 1);
    var k := cnt + HEAP0;
    forall i, j | Within(i, cnt + 1) && Within(j, cnt + 1) && b[i].w == b[j].w ensures i == j {
      if i != k && j != k { assert Within(i, cnt) && Within(j, cnt); }
      assert i != k ==> a[i].w in WatchersOf(a, cnt);
      assert j != k ==> a[j].w in WatchersOf(a, cnt);
    }
    assert b[k] in Elements(b, cnt + 1) && b[k].w in WatchersOf(b, cnt + 1);
    forall i | Within(i, cnt) ensures a[i] in Elements(b, cnt + 1) && a[i].w in WatchersOf(b, cnt + 1) {
      assert b[i] == a[i];
    }
  }

  /** The array after the last element has been moved into the hole at k. */
  function Holed(a: seq<Anhe>, cnt: nat, k: nat): (b: seq<Anhe>)
    requires cnt + HEAP0 < |a| && k <= cnt + HEAP0
  {
    if k < cnt + HEAP0 then a[k := a[cnt + HEAP0]] else a
  }

  /** It is a heap but for the element at k. */
  lemma RemoveElement(a: seq<Anhe>, cnt: nat, k: nat)
    requires IsHeap(a, cnt + 1) && Distinct(a, cnt + 1) && Within(k, cnt + 1)
    ensures var b := Holed(a, cnt, k);
            Distinct(b, cnt) && Elements(b, cnt) == Elements(a, cnt + 1) - {a[k]} &&
            WatchersOf(b, cnt) == WatchersOf(a, cnt + 1) - {a[k].w} &&
            if k < cnt + HEAP0 then HeapBut(b, cnt, k) else IsHeap(b, cnt)
  {
    var b := Holed(a, cnt, k);
    RemovedElements(a, cnt, k);
    forall i | Within(i, cnt) && i != k && HParent(i) != k ensures Ordered(b, cnt, i) {
      assert Within(i, cnt + 1);
      assert Ordered(a, cnt + 1, i);
    }
    forall i | Within(i, cnt) && i != k && HParent(i) == k ensures a[HParent(k)].at <= a[i].at {
      assert Within(i, cnt + 1) && Within(k, cnt + 1);
      assert Ordered(a, cnt + 1, i) && Ordered(a, cnt + 1, k);
    }
  }

  lemma RemovedElements(a: seq<Anhe>, cnt: nat, k: nat)
    requires cnt + 1 + HEAP0 <= |a| && Distinct(a, cnt + 1) && Within(k, cnt + 1)
    ensures var b := Holed(a, cnt, k);
            Distinct(b, cnt) && Elements(b, cnt) == Elements(a, cnt + 1) - {a[k]} &&
            WatchersOf(b, cnt) == WatchersOf(a, cnt + 1) - {a[k].w}
  {
    var b := Holed(a, cnt, k);
    var last := cnt + HEAP0;
    forall i | Within(i, cnt) ensures Within(k, cnt + 1) && b[i].w != a[k].w {
      assert Within(if i == k then last else i, cnt + 1);
    }
    forall i, j | Within(i, cnt) && Within(j, cnt) && b[i].w == b[j].w ensures i == j {
      assert Within(i, cnt + 1) && Within(j, cnt + 1) && Within(last, cnt + 1);
    }
    forall i | Within(i, cnt + 1) && i != k
      ensures a[i] in Elements(b, cnt) && a[i].w in WatchersOf(b, cnt)
    {
      var j := if i == last then k else i;
      assert Within(j, cnt) && b[j] == a[i];
    }
    forall i | Within(i, cnt) ensures b[i] in Elements(a, cnt + 1) && b[i].w in WatchersOf(a, cnt + 1) {
      var j := if i == k then last else i;
      assert b[i] == a[j];
    }
  }

  /** Any change of one element's time leaves a heap but for that element. */
  lemma ChangeKey(a: seq<Anhe>, cnt: nat, k: nat, at: real)
    requires IsHeap(a, cnt) && Distinct(a, cnt) && Within(k, cnt)
    ensures var b := a[k := Anhe(a[k].w, at)];
            HeapBut(b, cnt, k) && Distinct(b, cnt) && WatchersOf(b, cnt) == WatchersOf(a, cnt) &&
            Elements(b, cnt) == Elements(a, cnt) - {a[k]} + {b[k]}
  {
    var b := a[k := Anhe(a[k].w, at)];
    forall i | Within(i, cnt) && i != k && HParent(i) != k ensures Ordered(b, cnt, i) {
      assert Ordered(a, cnt, i);
    }
    forall i | Within(i, cnt) && i != k && HParent(i) == k ensures a[HParent(k)].at <= a[i].at {
      assert Ordered(a, cnt, i) && Ordered(a, cnt, k);
    }
    ChangedElements(a, cnt, k, at);
  }

  lemma ChangedElements(a: seq<Anhe>, cnt: nat, k: nat, at: real)
    requires cnt + HEAP0 <= |a| && Distinct(a, cnt) && Within(k, cnt)
    ensures var b := a[k := Anhe(a[k].w, at)];
            Distinct(b, cnt) && WatchersOf(b, cnt) == WatchersOf(a, cnt) &&
            Elements(b, cnt) == Elements(a, cnt) - {a[k]} + {b[k]}
  {
    var b := a[k := Anhe(a[k].w, at)];
    forall i | Within(i, cnt) ensures b[i].w in WatchersOf(a, cnt) && a[i].w in WatchersOf(b, cnt) {
      assert b[i].w == a[i].w;
    }
    assert b[k] in Elements(b, cnt);
    forall i | Within(i, cnt) && i != k ensures b[i] in Elements(a, cnt) && a[i] in Elements(b, cnt) && a[i] != a[k] {
      assert Within(k, cnt) && b[i] == a[i];
    }
  }

  /** The array after all times have been shifted. */
  ghost predicate Shifted(a: seq<Anhe>, b: seq<Anhe>, from: int, to: int, adjust: real)
  {
    |a| == |b| && forall k {:trigger b[k]} :: 0 <= k < |a| ==> b[k] == if from <= k < to then Anhe(a[k].w, a[k].at + adjust) else a[k]
  }

  /** Shifting all times keeps the order. */
  lemma ShiftedHeap(a: seq<Anhe>, b: seq<Anhe>, cnt: nat, adjust: real)
    requires IsHeap(a, cnt) && Distinct(a, cnt) && Shifted(a, b, HEAP0, cnt + HEAP0, adjust)
    ensures IsHeap(b, cnt) && Distinct(b, cnt)
  {
    forall k | Within(k, cnt) ensures Ordered(b, cnt, k) {
      assert Ordered(a, cnt, k);
      assert b[k].at == a[k].at + adjust && b[HParent(k)].at == a[HParent(k)].at + adjust;
    }
  }

  lemma ShiftedElements(a: seq<Anhe>, b: seq<Anhe>, cnt: nat, adjust: real)
    requires cnt + HEAP0 <= |a| && Shifted(a, b, HEAP0, cnt + HEAP0, adjust)
    ensures WatchersOf(b, cnt) == WatchersOf(a, cnt)
    ensures forall e :: e in Elements(a, cnt) ==> Anhe(e.w, e.at + adjust) in Elements(b, cnt)
  {
    forall k | Within(k, cnt) ensures b[k].w in WatchersOf(a, cnt) && a[k].w in WatchersOf(b, cnt) {
      assert b[k].w == a[k].w;
    }
    forall e | e in Elements(a, cnt) ensures Anhe(e.w, e.at + adjust) in Elements(b, cnt) {
      var i :| HEAP0 <= i < cnt + HEAP0 && a[i] == e;
      assert b[i] == Anhe(e.w, e.at + adjust);
    }
  }

  // ----- changes of a watcher's place in the pending queues -----

  /** The priority of a watcher that is not pending does not matter. */
  lemma Reprioritise(qs: Queues, pl: Places, dummy: Watcher, w: Watcher, pri: int)
    requires Consistent(qs, pl, dummy) && w in pl && (pl[w].pending == 0 || pl[w].pri == pri)
    ensures var pl' := pl[w := Place(pri, pl[w].pending)];
            Consistent(qs, pl', dummy) && View(qs, pl') == View(qs, pl)
  {
    var pl' := pl[w := Place(pri, pl[w].pending)];
    forall p, j | 0 <= p < NUMPRI && 0 <= j < |qs[p]| ensures ElementOk(qs, pl', dummy, p, j) {
      assert ElementOk(qs, pl, dummy, p, j);
    }
    forall x | x in pl' ensures WatcherOk(qs, pl', x) { assert WatcherOk(qs, pl, x); }
  }

  /** A watcher that is new and not pending. */
  lemma Unpending(qs: Queues, pl: Places, dummy: Watcher, w: Watcher, pri: int)
    requires Consistent(qs, pl, dummy) && w !in pl && w != dummy
    ensures Consistent(qs, pl[w := Place(pri, 0)], dummy)
    ensures View(qs, pl[w := Place(pri, 0)]) == View(qs, pl)
  {
    var pl' := pl[w := Place(pri, 0)];
    forall p, j | 0 <= p < NUMPRI && 0 <= j < |qs[p]| ensures ElementOk(qs, pl', dummy, p, j) {
      assert ElementOk(qs, pl, dummy, p, j);
    }
    forall x | x in pl' ensures WatcherOk(qs, pl', x) {
      assert x != w ==> WatcherOk(qs, pl, x);
    }
  }

  // ----- firing, on values -----

  function Max(x: real, y: real): real { if x < y then y else x }

  /** What becomes of the fired timer e: it gets its next time, if it repeats. */
  function Next(rep: map<Watcher, real>, now: real, e: Anhe): Schedule
  {
    if e.w in rep && rep[e.w] != 0.0 then {Anhe(e.w, Max(e.at + rep[e.w], now))} else {}
  }

  ghost predicate Rearmed(rep: map<Watcher, real>, now: real, fired: seq<Anhe>, x: Anhe)
  {
    exists i :: 0 <= i < |fired| && x in Next(rep, now, fired[i])
  }

  /** In order of expiry, each once. */
  ghost predicate InOrder(fired: seq<Anhe>)
  {
    forall i, j :: 0 <= i < j < |fired| ==> fired[i].at <= fired[j].at && fired[i].w != fired[j].w
  }

  ghost predicate OneEach(t: Schedule)
  {
    forall e, x :: e in t && x in t && e.w == x.w ==> e == x
  }

  /** From the schedule t0, the timers `fired` have been fired, which were due and the first to expire,
      in this order; this has left the schedule t. */
  ghost predicate Fired(t0: Schedule, t: Schedule, rep: map<Watcher, real>, now: real, fired: seq<Anhe>)
  {
    InOrder(fired) &&
    (forall i :: 0 <= i < |fired| ==> fired[i] in t0 && fired[i].at < now) &&
    (forall i, x :: 0 <= i < |fired| && x in t0 && x !in fired ==> fired[i].at <= x.at) &&
    (forall x :: x in t ==> (x in t0 && x !in fired) || Rearmed(rep, now, fired, x)) &&
    (forall x :: x in t0 && x !in fired ==> x in t) &&
    (forall i :: 0 <= i < |fired| ==> Next(rep, now, fired[i]) <= t)
  }

  /** Firing the first timer to expire. */
  lemma FireNext(t0: Schedule, t: Schedule, rep: map<Watcher, real>, now: real, fired: seq<Anhe>, e: Anhe, t': Schedule)
    requires Fired(t0, t, rep, now, fired) && OneEach(t0)
    requires e in t && e.at < now && e.w in rep && forall x :: x in t ==> e.at <= x.at
    requires t' == t - {e} + Next(rep, now, e)
    ensures Fired(t0, t', rep, now, fired + [e])
  {
    var f := fired + [e];
    NextInOrder(t0, t, rep, now, fired, e);
    forall i | 0 <= i < |fired| ensures f[i] == fired[i] && Next(rep, now, fired[i]) <= t' {
      assert fired[i].w != e.w;
    }
    assert f[|fired|] == e;
    forall x ensures x in f <==> x in fired || x == e {}
    forall x | x in t' ensures (x in t0 && x !in f) || Rearmed(rep, now, f, x) {
      if Rearmed(rep, now, fired, x) {
        var i :| 0 <= i < |fired| && x in Next(rep, now, fired[i]);
        assert x in Next(rep, now, f[i]);
      }
      if x in Next(rep, now, e) { assert x in Next(rep, now, f[|fired|]); }
    }
  }

  lemma NextInOrder(t0: Schedule, t: Schedule, rep: map<Watcher, real>, now: real, fired: seq<Anhe>, e: Anhe)
    requires Fired(t0, t, rep, now, fired) && OneEach(t0)
    requires e in t && e.at < now && forall x :: x in t ==> e.at <= x.at
    ensures InOrder(fired + [e]) && e in t0 && e !in fired
  {
    forall i | 0 <= i < |fired| ensures fired[i].w != e.w {
      assert fired[i] in t0;
    }
  }

  /** When none is due any more, just those that were due have been fired. */
  lemma AllFired(t0: Schedule, t: Schedule, rep: map<Watcher, real>, now: real, fired: seq<Anhe>)
    requires Fired(t0, t, rep, now, fired) && forall x :: x in t ==> x.at >= now
    ensures forall e :: e in fired <==> e in t0 && e.at < now
  {
  }

  // ----- feeding in reverse, on values -----

  /** w1 was fired before w2. */
  ghost predicate Before(fired: seq<Anhe>, w1: Watcher, w2: Watcher)
  {
    exists i, j :: 0 <= i < j < |fired| && fired[i].w == w1 && fired[j].w == w2
  }

  ghost predicate From(fired: seq<Anhe>, n: nat, w: Watcher)
  {
    exists i :: n <= i < |fired| && fired[i].w == w
  }

  /** What lies on top of the queues as they were: timers fired, those fired earlier above those
      fired later, so that they are taken off in the order of firing. */
  ghost predicate Stacked(base: Queues, qs: Queues, fired: seq<Anhe>, n: nat)
  {
    |qs| == |base| &&
    (forall p :: 0 <= p < |qs| ==> |base[p]| <= |qs[p]| && forall j :: 0 <= j < |base[p]| ==> qs[p][j].w == base[p][j].w) &&
    (forall p, j :: 0 <= p < |qs| && |base[p]| <= j < |qs[p]| ==> From(fired, n, qs[p][j].w)) &&
    (forall p, j, k :: 0 <= p < |qs| && |base[p]| <= j < k < |qs[p]| ==> Before(fired, qs[p][k].w, qs[p][j].w))
  }

  lemma StackNew(base: Queues, qs: Queues, fired: seq<Anhe>, n: nat, pri: nat, e: Anpending)
    requires n < |fired| && Stacked(base, qs, fired, n + 1) && pri < |qs| && fired[n].w == e.w
    ensures Stacked(base, Pushed(qs, pri, e), fired, n)
  {
    var qs': Queues := Pushed(qs, pri, e);
    forall p, j | 0 <= p < |qs| && |base[p]| <= j < |qs'[p]| ensures From(fired, n, qs'[p][j].w) {
      if p != pri || j < |qs[p]| {
        assert qs'[p][j] == qs[p][j] && From(fired, n + 1, qs[p][j].w);
      }
    }
    forall p, j, k | 0 <= p < |qs| && |base[p]| <= j < k < |qs'[p]| ensures Before(fired, qs'[p][k].w, qs'[p][j].w) {
      assert qs'[p][j] == qs[p][j] && From(fired, n + 1, qs[p][j].w);
      if p != pri || k < |qs[p]| {
        assert qs'[p][k] == qs[p][k];
      }
    }
  }

  lemma StackSame(base: Queues, qs: Queues, fired: seq<Anhe>, n: nat, qs': Queues)
    requires n < |fired| && Stacked(base, qs, fired, n + 1) && SameShape(qs, qs')
    ensures Stacked(base, qs', fired, n)
  {
    forall p, j | 0 <= p < |qs| && |base[p]| <= j < |qs'[p]| ensures From(fired, n, qs'[p][j].w) {
      assert qs'[p][j].w == qs[p][j].w && From(fired, n + 1, qs[p][j].w);
    }
    forall p, j, k | 0 <= p < |qs| && |base[p]| <= j < k < |qs'[p]| ensures Before(fired, qs'[p][k].w, qs'[p][j].w) {
      assert qs'[p][j].w == qs[p][j].w && qs'[p][k].w == qs[p][k].w;
    }
  }

  ghost function FiredSet(fired: seq<Anhe>, n: nat): set<Watcher> { set i | n <= i < |fired| :: fired[i].w }

  /** The fired timers that do not repeat; to stop them is to forget their events. */
  ghost function Stopped(rep: map<Watcher, real>, fired: seq<Anhe>): set<Watcher>
  {
    set e | e in fired && e.w in rep && rep[e.w] == 0.0 :: e.w
  }

  /** p differs from p0 in that the timers fired, from the n-th on, have been fed ev. */
  ghost predicate Fed(p0: map<Watcher, Events>, p: map<Watcher, Events>, fired: seq<Anhe>, n: nat, ev: Events)
  {
    p.Keys == p0.Keys + FiredSet(fired, n) &&
    forall w :: w in p ==> p[w] == if w in FiredSet(fired, n) then Waiting(p0, w) + ev else Waiting(p0, w)
  }

  lemma FeedStep(p0: map<Watcher, Events>, p: map<Watcher, Events>, fired: seq<Anhe>, n: nat, ev: Events)
    requires n < |fired| && Fed(p0, p, fired, n + 1, ev)
    ensures Fed(p0, Apply(p, Feed(fired[n].w, ev)), fired, n, ev)
  {
    assert FiredSet(fired, n) == FiredSet(fired, n + 1) + {fired[n].w};
  }

  /** What firing e, which stops it if it does not repeat, leaves of the pending events. */
  lemma StopStep(p0: map<Watcher, Events>, p: map<Watcher, Events>, rep: map<Watcher, real>, fired: seq<Anhe>, e: Anhe, p': map<Watcher, Events>)
    requires p == p0 - Stopped(rep, fired) && e.w in rep
    requires p' == if rep[e.w] == 0.0 then Apply(p, Forget(e.w)) else p
    ensures p' == p0 - Stopped(rep, fired + [e])
  {
    assert forall x :: x in fired + [e] <==> x in fired || x == e;
    assert Stopped(rep, fired + [e]) == Stopped(rep, fired) + if rep[e.w] == 0.0 then {e.w} else {};
  }

  /** Queues in which elements have been left to the dummy. */
  ghost predicate Emptied(qs: Queues, qs': Queues, dummy: Watcher)
  {
    |qs'| == |qs| && forall p :: 0 <= p < |qs| ==>
      |qs'[p]| == |qs[p]| && forall j :: 0 <= j < |qs[p]| ==> qs'[p][j] == qs[p][j] || qs'[p][j] == qs[p][j].(w := dummy)
  }

  lemma EmptyStep(qs: Queues, qs': Queues, w: Watcher, dummy: Watcher)
    requires Emptied(qs, qs', dummy)
    ensures Emptied(qs, Without(qs', w, dummy), dummy)
  {
  }

  ghost function Due(t: Schedule, now: real): Schedule { set x | x in t && x.at < now }

  /** The schedule, the pending events, the queues, and the timers collected for feeding. */
  datatype Snapshot = Snapshot(t: Schedule, p: map<Watcher, Events>, qs: Queues, feeds: seq<Watcher>)

  function WatchersIn(fired: seq<Anhe>): seq<Watcher>
  {
    if fired == [] then [] else WatchersIn(fired[..|fired| - 1]) + [fired[|fired| - 1].w]
  }

  /** What firing the timers `fired` makes of s0. */
  ghost predicate Progress(s0: Snapshot, s: Snapshot, rep: map<Watcher, real>, now: real, fired: seq<Anhe>, dummy: Watcher)
  {
    match s
    case Snapshot(t, p, qs, feeds) =>
      Fired(s0.t, t, rep, now, fired) && p == s0.p - Stopped(rep, fired) && Emptied(s0.qs, qs, dummy) &&
      feeds == WatchersIn(fired)
  }

  /** Firing e, the first timer to expire, makes s' of s. */
  ghost predicate OneFired(s: Snapshot, s': Snapshot, rep: map<Watcher, real>, now: real, dummy: Watcher, e: Anhe)
  {
    match s'
    case Snapshot(t', p', qs', feeds') =>
      e in s.t && e.at < now && e.w in rep && (forall x :: x in s.t ==> e.at <= x.at) &&
      t' == s.t - {e} + Next(rep, now, e) && feeds' == s.feeds + [e.w] &&
      if rep[e.w] == 0.0 then p' == Apply(s.p, Forget(e.w)) && qs' == Without(s.qs, e.w, dummy)
      else p' == s.p && qs' == s.qs
  }

  lemma ProgressStep(s0: Snapshot, s: Snapshot, rep: map<Watcher, real>, now: real, fired: seq<Anhe>, dummy: Watcher, e: Anhe, s': Snapshot)
    requires Progress(s0, s, rep, now, fired, dummy) && OneEach(s0.t)
    requires OneFired(s, s', rep, now, dummy, e)
    ensures Progress(s0, s', rep, now, fired + [e], dummy) && |Due(s'.t, now)| < |Due(s.t, now)|
  {
    FireNext(s0.t, s.t, rep, now, fired, e, s'.t);
    LessDue(s.t, rep, now, e);
    StopStep(s0.p, s.p, rep, fired, e, s'.p);
    EmptyStep(s0.qs, s.qs, e.w, dummy);
    assert (fired + [e])[..|fired|] == fired;
  }

  lemma LessDue(t: Schedule, rep: map<Watcher, real>, now: real, e: Anhe)
    requires e in t && e.at < now
    ensures |Due(t - {e} + Next(rep, now, e), now)| < |Due(t, now)|
  {
    assert Due(t - {e} + Next(rep, now, e), now) == Due(t, now) - {e};
  }

  lemma {:induction false} WatchersInOrder(fired: seq<Anhe>)
    ensures |WatchersIn(fired)| == |fired| && forall i :: 0 <= i < |fired| ==> WatchersIn(fired)[i] == fired[i].w
  {
    if fired != [] {
      WatchersInOrder(fired[..|fired| - 1]);
    }
  }

  /** What feeding the timers fired, from the n-th on, in reverse makes of s0. */
  ghost predicate Feeding(s0: Snapshot, s: Snapshot, fired: seq<Anhe>, n: nat, ev: Events)
  {
    match s
    case Snapshot(t, p, qs, feeds) =>
      n <= |fired| && Stacked(s0.qs, qs, fired, n) && Fed(s0.p, p, fired, n, ev) &&
      |feeds| == n && (forall i :: 0 <= i < n ==> feeds[i] == fired[i].w) && t == s0.t
  }

  lemma FeedingStarts(s0: Snapshot, fired: seq<Anhe>, ev: Events)
    requires s0.feeds == WatchersIn(fired)
    ensures Feeding(s0, s0, fired, |fired|, ev)
  {
    WatchersInOrder(fired);
  }

  lemma FeedingStep(s0: Snapshot, s: Snapshot, fired: seq<Anhe>, n: nat, ev: Events, s': Snapshot, pri: int)
    requires Feeding(s0, s, fired, n + 1, ev) && s'.t == s.t && s'.feeds == s.feeds[..n]
    requires s'.p == Apply(s.p, Feed(fired[n].w, ev)) && Queued(s.qs, s'.qs, pri, Anpending(fired[n].w, ev))
    ensures Feeding(s0, s', fired, n, ev)
  {
    FeedStep(s0.p, s.p, fired, n, ev);
    if SameShape(s.qs, s'.qs) {
      StackSame(s0.qs, s.qs, fired, n, s'.qs);
    } else {
      StackNew(s0.qs, s.qs, fired, n, pri, Anpending(fired[n].w, ev));
    }
  }

  /** What timers_reify makes of s0: the timers that were due have been fired, in order of expiry, and fed. */
  ghost predicate Reified(s0: Snapshot, s: Snapshot, rep: map<Watcher, real>, now: real, fired: seq<Anhe>)
  {
    match s
    case Snapshot(t, p, qs, feeds) =>
      (set e | e in fired) == Due(s0.t, now) && InOrder(fired) && Due(t, now) == {} &&
      Fired(s0.t, t, rep, now, fired) &&
      Fed(s0.p - Stopped(rep, fired), p, fired, 0, EV_TIMER) && feeds == []
  }

  /** Neither a timer that was not pending nor one that has been stopped was waiting to be invoked. */
  ghost predicate Idle(s0: Snapshot, rep: map<Watcher, real>, w: Watcher)
  {
    w !in s0.p || (w in rep && rep[w] == 0.0)
  }

  /** Of the timers fired with the same priority, not pending before, the first to expire is the
      first to be invoked, because it lies on top of its queue. */
  ghost predicate EarlierFirst(s0: Snapshot, rep: map<Watcher, real>, fired: seq<Anhe>, pl: Places)
    requires forall e :: e in fired ==> e.w in pl
  {
    forall i, j :: 0 <= i < j < |fired| && Idle(s0, rep, fired[i].w) && Idle(s0, rep, fired[j].w) ==>
      pl[fired[i].w].pri == pl[fired[j].w].pri ==> pl[fired[i].w].pending > pl[fired[j].w].pending > 0
  }

  lemma NotBefore(fired: seq<Anhe>, i: nat, j: nat)
    requires InOrder(fired) && i < j < |fired|
    ensures !Before(fired, fired[j].w, fired[i].w)
  {
  }

  lemma NotQueued(qs: Queues, pl: Places, dummy: Watcher, w: Watcher)
    requires Consistent(qs, pl, dummy) && w in pl && pl[w].pending == 0
    ensures forall p, j :: 0 <= p < NUMPRI && 0 <= j < |qs[p]| ==> qs[p][j].w != w
  {
    forall p, j | 0 <= p < NUMPRI && 0 <= j < |qs[p]| ensures qs[p][j].w != w {
      assert ElementOk(qs, pl, dummy, p, j);
    }
  }

  /** Of two timers fed that were not pending before, the one fired first lies above the other. */
  lemma EarlierOnTop(base: Queues, plb: Places, qs: Queues, pl: Places, dummy: Watcher, fired: seq<Anhe>, i: nat, j: nat)
    requires Consistent(base, plb, dummy) && Consistent(qs, pl, dummy) && Stacked(base, qs, fired, 0) && InOrder(fired)
    requires i < j < |fired| && fired[i].w in pl && fired[j].w in pl && fired[i].w in plb && fired[j].w in plb
    requires plb[fired[i].w].pending == plb[fired[j].w].pending == 0 < pl[fired[i].w].pending
    requires pl[fired[j].w].pending > 0 && pl[fired[i].w].pri == pl[fired[j].w].pri
    ensures pl[fired[i].w].pending > pl[fired[j].w].pending
  {
    var w1, w2 := fired[i].w, fired[j].w;
    assert WatcherOk(qs, pl, w1) && WatcherOk(qs, pl, w2);
    NotQueued(base, plb, dummy, w1);
    NotQueued(base, plb, dummy, w2);
    NotBefore(fired, i, j);
  }

  lemma FedEarlierFirst(s0: Snapshot, s1: Snapshot, s: Snapshot, rep: map<Watcher, real>, now: real, fired: seq<Anhe>,
      dummy: Watcher, plb: Places, pl: Places)
    requires Progress(s0, s1, rep, now, fired, dummy) && (forall x :: x in s1.t ==> x.at >= now)
    requires Feeding(s1, s, fired, 0, EV_TIMER)
    requires Consistent(s1.qs, plb, dummy) && s1.p == View(s1.qs, plb)
    requires Consistent(s.qs, pl, dummy) && s.p == View(s.qs, pl)
    requires forall e :: e in fired ==> e.w in pl && e.w in plb && e.w in rep
    ensures Reified(s0, s, rep, now, fired) && EarlierFirst(s0, rep, fired, pl)
  {
    AllFired(s0.t, s1.t, rep, now, fired);
    forall i | 0 <= i < |fired|
      ensures pl[fired[i].w].pending > 0 && (Idle(s0, rep, fired[i].w) ==> plb[fired[i].w].pending == 0)
    {
      var w := fired[i].w;
      assert fired[i] in fired && w in FiredSet(fired, 0);
      assert w in s.p;
      assert Idle(s0, rep, w) ==> w !in s1.p;
      assert WatcherOk(s1.qs, plb, w);
    }
    forall i, j | 0 <= i < j < |fired| && Idle(s0, rep, fired[i].w) && Idle(s0, rep, fired[j].w)
      ensures pl[fired[i].w].pri == pl[fired[j].w].pri ==> pl[fired[i].w].pending > pl[fired[j].w].pending
    {
      if pl[fired[i].w].pri == pl[fired[j].w].pri {
        EarlierOnTop(s1.qs, plb, s.qs, pl, dummy, fired, i, j);
      }
    }
  }

  lemma ForgetNothing(m: map<Watcher, Events>, w: Watcher)
    requires w !in m
    ensures Apply(m, Forget(w)) == m
  {
  }

  /** Every timer that is due and repeats has got its next time, which is not before now; those that do not
      repeat are gone; the others are as they were. */
  ghost predicate Rescheduled(t0: Schedule, t: Schedule, rep: map<Watcher, real>, now: real)
  {
    var ok := OneEach(t) &&
      (forall x {:trigger x in t} :: x in t ==> x.at >= now && Scheduled(t0, x.w)) &&
      (forall e {:trigger e in t0} :: e in t0 ==> WhatBecomes(t, rep, now, e));
    ok
  }

  ghost predicate Scheduled(t: Schedule, w: Watcher) { exists e :: e in t && e.w == w }

  ghost predicate WhatBecomes(t: Schedule, rep: map<Watcher, real>, now: real, e: Anhe)
  {
    if e.at >= now then e in t
    else if e.w in rep && rep[e.w] == 0.0 then !Scheduled(t, e.w)
    else if e.w in rep && e.at + rep[e.w] >= now then Anhe(e.w, e.at + rep[e.w]) in t
    else e.w in rep ==> Anhe(e.w, now) in t
  }

  /** A timer that is scheduled was scheduled before: it has not been fired, or repeats. */
  lemma Origin(t0: Schedule, t: Schedule, rep: map<Watcher, real>, now: real, fired: seq<Anhe>, x: Anhe) returns (e: Anhe)
    requires Fired(t0, t, rep, now, fired) && x in t
    ensures e in t0 && e.w == x.w && if e in fired then x in Next(rep, now, e) else x == e
  {
    e := x;
    if !(x in t0 && x !in fired) {
      var i :| 0 <= i < |fired| && x in Next(rep, now, fired[i]);
      e := fired[i];
    }
  }

  lemma BecomesNext(t0: Schedule, t: Schedule, rep: map<Watcher, real>, now: real, fired: seq<Anhe>, e: Anhe)
    requires Fired(t0, t, rep, now, fired) && OneEach(t0) && e in t0 && (e in fired <==> e.at < now)
    ensures WhatBecomes(t, rep, now, e)
  {
    if e.at < now && e.w in rep {
      var i :| 0 <= i < |fired| && fired[i] == e;
      assert Next(rep, now, fired[i]) <= t;
      if rep[e.w] == 0.0 {
        forall x | x in t ensures x.w != e.w {
          var y := Origin(t0, t, rep, now, fired, x);
        }
      }
    }
  }

  lemma FiredReschedules(t0: Schedule, t: Schedule, rep: map<Watcher, real>, now: real, fired: seq<Anhe>)
    requires Fired(t0, t, rep, now, fired) && OneEach(t0) && forall x :: x in t ==> x.at >= now
    ensures Rescheduled(t0, t, rep, now)
  {
    AllFired(t0, t, rep, now, fired);
    forall x, y | x in t && y in t && x.w == y.w ensures x == y {
      var e := Origin(t0, t, rep, now, fired, x);
      var f := Origin(t0, t, rep, now, fired, y);
    }
    forall x | x in t ensures Scheduled(t0, x.w) { var e := Origin(t0, t, rep, now, fired, x); }
    forall e | e in t0 ensures WhatBecomes(t, rep, now, e) { BecomesNext(t0, t, rep, now, fired, e); }
  }

  /** What timers_reify makes of the schedule. */
  lemma ReifiedReschedules(s0: Snapshot, s: Snapshot, rep: map<Watcher, real>, now: real, fired: seq<Anhe>)
    requires Reified(s0, s, rep, now, fired) && OneEach(s0.t)
    ensures Rescheduled(s0.t, s.t, rep, now)
  {
    forall x | x in s.t ensures x.at >= now { assert x in s.t && x !in Due(s.t, now); }
    FiredReschedules(s0.t, s.t, rep, now, fired);
  }

  // ----- the loop's timers -----

  class TimerLoop {
    const timers: HeapArray
    var timercnt: nat
    const pend: PendingQueues
    var rfeeds: seq<Watcher>
    var mnNow: real
    var activecnt: int

    constructor (dummy: Watcher, now: real)
      requires dummy.pending == 0
      ensures Valid() && Times() == {} && pend.watchers == {} && mnNow == now && rfeeds == []
      ensures fresh(timers) && fresh(pend)
    {
      timers := new HeapArray();
      pend := new PendingQueues(dummy);
      timercnt, rfeeds, mnNow, activecnt := 0, [], now, 0;
    }

    /** How many watchers of other kinds are active. */
    function Rest(): int
      reads this`activecnt, this`timercnt
    {
      activecnt - timercnt
    }

    /** The watchers in the heap. */
    ghost function Active(): set<Watcher>
      reads this`timercnt, timers
    {
      if timercnt + HEAP0 <= |timers.a| then WatchersOf(timers.a, timercnt) else {}
    }

    /** The watchers in the heap and their times. */
    ghost function Times(): Schedule
      reads this`timercnt, timers
    {
      if timercnt + HEAP0 <= |timers.a| then Elements(timers.a, timercnt) else {}
    }

    /** Every element of the heap caches its watcher's time. */
    ghost predicate Cached()
      reads this`timercnt, timers, Active()`at
    {
      forall e :: e in Times() ==> e.w in Active() && e.at == e.w.at
    }

    ghost predicate HeapValid()
      reads this`timercnt, timers, Active()`at, Active()`active
    {
      timercnt + HEAP0 <= |timers.a| && IsHeap(timers.a, timercnt) && Distinct(timers.a, timercnt) &&
      timers.AllBacked(timercnt) && Cached()
    }

    /** The watchers in the heap are the active ones. */
    ghost predicate WatchersValid()
      reads this`timercnt, timers, pend`watchers, pend.watchers`repeat, pend.watchers`active, pend.watchers`priority
    {
      Active() <= pend.watchers && forall w {:trigger TimerOk(w)} :: w in pend.watchers ==> TimerOk(w)
    }

    ghost predicate TimerOk(w: Watcher)
      reads this`timercnt, timers, w`repeat, w`active, w`priority
    {
      w.repeat >= 0.0 && (w.active > 0 ==> w in Active() && EV_MINPRI <= w.priority <= EV_MAXPRI)
    }

    ghost predicate Valid()
      reads this`timercnt, timers, pend, pend.dummy`pending, pend.watchers, Active()`at, Active()`active
    {
      HeapValid() && WatchersValid() && pend.Valid()
    }

    /** ev_init: the loop gets to know a watcher. */
    ghost method Register(w: Watcher)
      requires Valid() && w !in pend.watchers && w != pend.dummy
      requires w.active == 0 && w.pending == 0 && w.repeat >= 0.0
      modifies pend`watchers
      ensures Valid() && pend.watchers == old(pend.watchers) + {w}
      ensures Times() == old(Times()) && pend.Pending() == old(pend.Pending())
    {
      ghost var pl := pend.Places();
      pend.watchers := pend.watchers + {w};
      assert pend.Places() == pl[w := Place(AbsPri(w.priority), 0)];
      Unpending(pend.queues, pl, pend.dummy, w, AbsPri(w.priority));
    }

    /** An active watcher is where it says. */
    lemma AtPlace(w: Watcher)
      requires HeapValid() && w in Active()
      ensures Within(w.active, timercnt) && timers.a[w.active] == Anhe(w, w.at)
    {
      var i: nat :| Within(i, timercnt) && timers.a[i].w == w;
      assert timers.a[i].w.active == i;
      assert timers.a[i] in Elements(timers.a, timercnt);
    }

    /** No stopped watcher is in the heap. */
    lemma Started()
      requires HeapValid()
      ensures forall w :: w in Active() ==> w.active > 0
    {
      forall w | w in Active() ensures w.active > 0 { AtPlace(w); }
    }

    /** Start a timer that is not active: its time, so far relative, becomes absolute. Other watchers
        are only moved within the heap. */
    method TimerStart(w: Watcher)
      requires Valid() && w in pend.watchers
      modifies this`timercnt, this`activecnt, timers, w`at, w`priority, pend.watchers`active
      ensures Valid() && pend.Pending() == old(pend.Pending())
      ensures old(w.active) > 0 ==> Times() == old(Times()) && w.priority == old(w.priority)
      ensures old(w.active) == 0 ==>
        Times() == old(Times()) + {Anhe(w, w.at)} && w.at == old(w.at) + mnNow && w.priority == Clamp(old(w.priority))
      ensures Rest() == old(Rest())
    {
      if w.active > 0 { return; }
      Started();
      AdjustPriority(w);
      Enter(w);
      forall x | x in pend.watchers ensures TimerOk(x) {
        assert old(TimerOk(x));
      }
    }

    /** pri_adjust, in ev_start. */
    method AdjustPriority(w: Watcher)
      requires pend.Valid() && w in pend.watchers
      modifies w`priority
      ensures w.priority == Clamp(old(w.priority))
      ensures pend.Valid() && pend.Pending() == old(pend.Pending())
    {
      ghost var pl := pend.Places();
      Adjusted(w);
      w.priority := Clamp(w.priority);
      Reprioritise(pend.queues, pl, pend.dummy, w, AbsPri(w.priority));
      assert pend.Places() == pl[w := Place(AbsPri(w.priority), pl[w].pending)];
    }

    /** The priority of a pending watcher is in range already. */
    lemma Adjusted(w: Watcher)
      requires pend.Valid() && w in pend.watchers
      ensures w.pending > 0 ==> Clamp(w.priority) == w.priority
    {
      assert WatcherOk(pend.queues, pend.Places(), w);
    }

    /** ev_timer_start for a watcher that is not active, as far as the heap is concerned. */
    method Enter(w: Watcher)
      requires HeapValid() && w !in Active()
      modifies this`timercnt, this`activecnt, timers, w`at, w`active, Active()`active
      ensures HeapValid() && Active() == old(Active()) + {w} && w.active > 0
      ensures Times() == old(Times()) + {Anhe(w, w.at)} && w.at == old(w.at) + mnNow
      ensures Rest() == old(Rest())
    {
      w.at := w.at + mnNow;
      timercnt := timercnt + 1;
      w.active := timercnt + HEAP0 - 1;
      activecnt := activecnt + 1;
      Append(w);
      timers.Upheap(w.active, timercnt, timercnt);
      assert Cached() by {
        forall e | e in Times() ensures e.w in Active() && e.at == e.w.at {
          if e != Anhe(w, w.at) { assert e in old(Times()) && e.w != w; }
        }
      }
      AtPlace(w);
    }

    /** Put a watcher in the last place, growing the array if need be. */
    method Append(w: Watcher)
      requires timercnt > 0 && w.active == timercnt - 1 + HEAP0 <= |timers.a|
      requires IsHeap(timers.a, timercnt - 1) && Distinct(timers.a, timercnt - 1) && timers.AllBacked(timercnt - 1)
      requires w !in WatchersOf(timers.a, timercnt - 1)
      modifies timers
      ensures UpReady(timers.a, timercnt, w.active) && timers.Moving(timercnt, w.active, timers.a[w.active])
      ensures Elements(timers.a, timercnt) == Elements(old(timers.a), timercnt - 1) + {Anhe(w, w.at)}
      ensures WatchersOf(timers.a, timercnt) == WatchersOf(old(timers.a), timercnt - 1) + {w}
    {
      ghost var b := timers.a;
      if |timers.a| <= w.active {
        timers.a := timers.a + [Anhe(w, w.at)];
      } else {
        timers.a := timers.a[w.active := Anhe(w, w.at)];
      }
      AppendElement(b, timers.a, timercnt - 1, Anhe(w, w.at));
      assert timers.a[w.active := timers.a[w.active]] == timers.a;
      forall i | Within(i, timercnt) && i != w.active ensures timers.a[i].w.active == i {
        assert timers.a[i] == b[i] && Within(i, timercnt - 1);
        assert b[i].w in WatchersOf(b, timercnt - 1);
      }
    }

    /** Stop a timer and forget its events; its time becomes relative again. */
    method TimerStop(w: Watcher)
      requires Valid() && w in pend.watchers
      modifies this`timercnt, this`activecnt, timers, w`at, pend.watchers`active, pend`queues, w`pending
      ensures Valid() && w.active == 0 && w.pending == 0
      ensures pend.Pending() == Apply(old(pend.Pending()), Forget(w))
      ensures pend.queues == Without(old(pend.queues), w, pend.dummy)
      ensures old(w.active) > 0 ==> Times() == old(Times()) - {Anhe(w, old(w.at))} && w.at == old(w.at) - mnNow
      ensures old(w.active) == 0 ==> Times() == old(Times()) && w.at == old(w.at)
      ensures Rest() == old(Rest())
    {
      Started();
      var _ := pend.ClearPending(w);
      if w.active == 0 { return; }
      assert TimerOk(w);
      ghost var pl := pend.Places();
      Leave(w);
      assert pend.Places() == pl;
      forall x | x in pend.watchers ensures TimerOk(x) {
        assert old(TimerOk(x));
      }
    }

    /** ev_timer_stop for an active watcher, as far as the heap is concerned. */
    method Leave(w: Watcher)
      requires HeapValid() && w in Active()
      modifies this`timercnt, this`activecnt, timers, w`at, Active()`active
      ensures HeapValid() && Active() == old(Active()) - {w} && w.active == 0
      ensures Times() == old(Times()) - {Anhe(w, old(w.at))} && w.at == old(w.at) - mnNow
      ensures Rest() == old(Rest())
    {
      AtPlace(w);
      var active := w.active;
      timercnt := timercnt - 1;
      FillHole(active);
      w.at := w.at - mnNow;
      w.active := 0;
      activecnt := activecnt - 1;
      assert Cached() by {
        forall e | e in Times() ensures e.w in Active() && e.at == e.w.at {
          assert e in old(Times());
        }
      }
    }

    /** Close the gap at k, with the last element, just behind the heap, if that is another one. */
    method FillHole(k: nat)
      requires timercnt + 1 + HEAP0 <= |timers.a| && IsHeap(timers.a, timercnt + 1) && Distinct(timers.a, timercnt + 1)
      requires timers.AllBacked(timercnt + 1) && Within(k, timercnt + 1)
      modifies timers, WatchersOf(timers.a, timercnt + 1)`active
      ensures timercnt + HEAP0 <= |timers.a| && IsHeap(timers.a, timercnt) && Distinct(timers.a, timercnt)
      ensures timers.AllBacked(timercnt)
      ensures Elements(timers.a, timercnt) == Elements(old(timers.a), timercnt + 1) - {old(timers.a)[k]}
      ensures WatchersOf(timers.a, timercnt) == WatchersOf(old(timers.a), timercnt + 1) - {old(timers.a)[k].w}
    {
      RemoveElement(timers.a, timercnt, k);
      forall i | Within(i, timercnt) ensures Within(i, timercnt + 1) {}
      if k < timercnt + HEAP0 {
        timers.a := timers.a[k := timers.a[timercnt + HEAP0]];
        assert timers.a[k := timers.a[k]] == timers.a;
        timers.Adjustheap(timercnt, k);
      }
    }

    /** Give an active timer another time. */
    method ChangeTime(w: Watcher, at: real)
      requires HeapValid() && w in Active()
      modifies timers, w`at, Active()`active
      ensures HeapValid() && Active() == old(Active()) && w.at == at
      ensures Times() == old(Times()) - {Anhe(w, old(w.at))} + {Anhe(w, at)}
    {
      AtPlace(w);
      var k := w.active;
      w.at := at;
      ChangeKey(timers.a, timercnt, k, at);
      timers.a := timers.a[k := Anhe(w, at)];
      assert timers.a[k := timers.a[k]] == timers.a;
      timers.Adjustheap(timercnt, k);
    }

    /** An active watcher of a valid loop gets another time. */
    method Postpone(w: Watcher, at: real)
      requires Valid() && w in Active()
      modifies timers, w`at, Active()`active
      ensures Valid() && pend.Pending() == old(pend.Pending()) && w.active > 0
      ensures Times() == old(Times()) - {Anhe(w, old(w.at))} + {Anhe(w, at)} && w.at == at
    {
      ghost var pl := pend.Places();
      Started();
      ChangeTime(w, at);
      AtPlace(w);
      assert pend.Places() == pl;
      forall x | x in pend.watchers ensures TimerOk(x) { assert old(TimerOk(x)); }
    }

    /** ev_timer_again for a watcher whose events have been forgotten. */
    method Restart(w: Watcher)
      requires Valid() && w in pend.watchers && w.repeat > 0.0
      modifies this`timercnt, this`activecnt, timers, w`at, w`priority, pend.watchers`active
      ensures Valid() && pend.Pending() == old(pend.Pending()) && w.active > 0 && w.at == mnNow + w.repeat
      ensures Times() == old(Times()) - {Anhe(w, old(w.at))} + {Anhe(w, w.at)}
      ensures Rest() == old(Rest())
    {
      assert TimerOk(w);
      Started();
      if w.active > 0 {
        Postpone(w, mnNow + w.repeat);
      } else {
        assert Anhe(w, w.at) !in Times();
        w.at := w.repeat;
        forall x | x in pend.watchers ensures TimerOk(x) { assert old(TimerOk(x)); }
        TimerStart(w);
        AtPlace(w);
      }
    }

    /** Restart a repeating timer, whether active or not, or stop one that does not repeat. The
        source's two cases with a repeat time are in Restart. */
    method TimerAgain(w: Watcher)
      requires Valid() && w in pend.watchers
      modifies this`timercnt, this`activecnt, timers, w`at, w`priority, pend.watchers`active, pend`queues, w`pending
      ensures Valid() && pend.Pending() == Apply(old(pend.Pending()), Forget(w))
      ensures w.repeat > 0.0 ==> w.active > 0 && w.at == mnNow + w.repeat
      ensures w.repeat > 0.0 ==> Times() == old(Times()) - {Anhe(w, old(w.at))} + {Anhe(w, w.at)}
      ensures w.repeat == 0.0 ==> w.active == 0 && Times() == old(Times()) - {Anhe(w, old(w.at))}
      ensures Rest() == old(Rest())
    {
      assert TimerOk(w);
      ForgetEvents(w);
      Again(w);
    }

    method Again(w: Watcher)
      requires Valid() && w in pend.watchers && w !in pend.Pending() && w.repeat >= 0.0
      requires w.active == 0 ==> Anhe(w, w.at) !in Times()
      modifies this`timercnt, this`activecnt, timers, w`at, w`priority, pend.watchers`active, pend`queues, w`pending
      ensures Valid() && pend.Pending() == old(pend.Pending())
      ensures w.repeat > 0.0 ==> w.active > 0 && w.at == mnNow + w.repeat
      ensures w.repeat > 0.0 ==> Times() == old(Times()) - {Anhe(w, old(w.at))} + {Anhe(w, w.at)}
      ensures w.repeat == 0.0 ==> w.active == 0 && Times() == old(Times()) - {Anhe(w, old(w.at))}
      ensures Rest() == old(Rest())
    {
      if w.repeat != 0.0 {
        Restart(w);
      } else if w.active > 0 {
        ForgetNothing(pend.Pending(), w);
        TimerStop(w);
      }
    }

    /** clear_pending. */
    method ForgetEvents(w: Watcher)
      requires Valid() && w in pend.watchers
      modifies pend`queues, w`pending
      ensures Valid() && pend.Pending() == Apply(old(pend.Pending()), Forget(w))
      ensures w.active == 0 ==> Anhe(w, w.at) !in Times()
    {
      Started();
      var _ := pend.ClearPending(w);
    }

    /** Give the root a later time. */
    method ChangeRoot(w: Watcher, at: real)
      requires HeapValid() && timercnt > 0 && w == timers.a[HEAP0].w
      modifies timers, w`at, Active()`active
      ensures HeapValid() && Active() == old(Active()) && w.at == at
      ensures Times() == old(Times()) - {Anhe(w, old(w.at))} + {Anhe(w, at)}
    {
      assert Within(HEAP0, timercnt) && timers.a[HEAP0] in Times();
      w.at := at;
      ChangeKey(timers.a, timercnt, HEAP0, at);
      timers.a := timers.a[HEAP0 := Anhe(w, at)];
      assert timers.a[HEAP0 := timers.a[HEAP0]] == timers.a;
      timers.Downheap(timercnt, HEAP0);
    }

    /** The body of timers_reify's loop: the root is due. */
    method FireRoot(ghost s: Snapshot, ghost rep: map<Watcher, real>) returns (ghost s': Snapshot)
      requires Valid() && timercnt > 0 && timers.a[HEAP0].at < mnNow && s == Now() && Knows(rep)
      modifies this`timercnt, this`activecnt, this`rfeeds, timers, pend`queues,
        pend.watchers`at, pend.watchers`active, pend.watchers`pending
      ensures Valid() && s' == Now() && Knows(rep)
      ensures OneFired(s, s', rep, mnNow, pend.dummy, old(timers.a[HEAP0]))
      ensures Rest() == old(Rest())
    {
      var w := timers.a[HEAP0].w;
      s' := StopOrRearm(w, s, rep);
      FeedReverse(w);
    }

    /** feed_reverse: collect a timer. */
    method FeedReverse(w: Watcher)
      requires Valid()
      modifies this`rfeeds
      ensures Valid() && Now() == old(Now()).(feeds := rfeeds) && rfeeds == old(rfeeds) + [w]
    {
      rfeeds := rfeeds + [w];
    }

    /** First reschedule or stop the timer. */
    method StopOrRearm(w: Watcher, ghost s: Snapshot, ghost rep: map<Watcher, real>) returns (ghost s': Snapshot)
      requires Valid() && timercnt > 0 && timers.a[HEAP0].at < mnNow && s == Now() && Knows(rep)
      requires w == timers.a[HEAP0].w
      modifies this`timercnt, this`activecnt, timers, pend`queues,
        pend.watchers`at, pend.watchers`active, pend.watchers`pending
      ensures Valid() && s' == Now().(feeds := rfeeds + [w]) && Knows(rep)
      ensures OneFired(s, s', rep, mnNow, pend.dummy, old(timers.a[HEAP0]))
      ensures Rest() == old(Rest())
    {
      FirstIsLeast();
      assert TimerOk(w);
      if w.repeat != 0.0 {
        Rearm(w);
      } else {
        TimerStop(w);
      }
      s' := Now().(feeds := rfeeds + [w]);
    }

    lemma FirstIsLeast()
      requires Valid() && timercnt > 0
      ensures timers.a[HEAP0] in Times() && timers.a[HEAP0].w in Active() && timers.a[HEAP0].w.active > 0
      ensures forall x :: x in Times() ==> timers.a[HEAP0].at <= x.at
      ensures timers.a[HEAP0].at == timers.a[HEAP0].w.at
    {
      assert Within(HEAP0, timercnt);
      assert timers.a[HEAP0] in Times() && timers.a[HEAP0].w in Active();
      forall x | x in Times() ensures timers.a[HEAP0].at <= x.at {
        var i: nat :| Within(i, timercnt) && timers.a[i] == x;
        RootIsLeast(timers.a, timercnt, i);
      }
    }

    /** A repeating timer that is due gets its next time, but not one that has passed already. */
    method Rearm(w: Watcher)
      requires Valid() && timercnt > 0 && w == timers.a[HEAP0].w && w.repeat != 0.0
      modifies timers, w`at, Active()`active
      ensures Valid() && pend.Pending() == old(pend.Pending())
      ensures Times() == old(Times()) - {Anhe(w, old(w.at))} + {Anhe(w, Max(old(w.at) + w.repeat, mnNow))}
    {
      ghost var pl := pend.Places();
      FirstIsLeast();
      Started();
      var at := w.at + w.repeat;
      if at < mnNow {
        at := mnNow;
      }
      ChangeRoot(w, at);
      Started();
      assert pend.Places() == pl;
      forall x | x in pend.watchers ensures TimerOk(x) { assert old(TimerOk(x)); }
    }

    ghost function Repeats(): map<Watcher, real>
      reads pend`watchers, pend.watchers`repeat
    {
      map w | w in pend.watchers :: w.repeat
    }

    ghost predicate Knows(rep: map<Watcher, real>)
      reads pend`watchers, pend.watchers`repeat
    {
      forall w :: w in pend.watchers ==> w in rep && rep[w] == w.repeat
    }

    /** Each watcher has one place in the heap. */
    lemma Unique()
      requires HeapValid()
      ensures OneEach(Times())
    {
    }

    ghost function Now(): Snapshot
      requires pend.Valid()
      reads this`timercnt, this`rfeeds, timers, pend, pend.dummy`pending, pend.watchers`priority, pend.watchers`pending
    {
      Snapshot(Times(), pend.Pending(), pend.queues, rfeeds)
    }

    /** The loop of timers_reify: fire timers until the first to expire is not due. */
    method FireAll(ghost s0: Snapshot, ghost rep: map<Watcher, real>) returns (ghost fired: seq<Anhe>, ghost s: Snapshot)
      requires Valid() && rfeeds == [] && s0 == Now() && Knows(rep)
      modifies this`timercnt, this`activecnt, this`rfeeds, timers, pend`queues,
        pend.watchers`at, pend.watchers`active, pend.watchers`pending
      ensures Valid() && s == Now() && Progress(s0, s, rep, mnNow, fired, pend.dummy)
      ensures forall x :: x in s.t ==> x.at >= mnNow
      ensures Rest() == old(Rest())
    {
      fired, s := [], s0;
      Unique();
      while timercnt != 0 && timers.a[HEAP0].at < mnNow
        invariant Valid() && s == Now() && Knows(rep)
        invariant Progress(s0, s, rep, mnNow, fired, pend.dummy) && Rest() == old(Rest())
        decreases |Due(s.t, mnNow)|
      {
        fired, s := FireFirst(s0, s, rep, fired);
      }
      if timercnt != 0 { FirstIsLeast(); }
    }

    /** One turn. */
    method FireFirst(ghost s0: Snapshot, ghost s: Snapshot, ghost rep: map<Watcher, real>, ghost fired: seq<Anhe>)
      returns (ghost fired': seq<Anhe>, ghost s': Snapshot)
      requires Valid() && timercnt > 0 && timers.a[HEAP0].at < mnNow && s == Now() && Knows(rep) && OneEach(s0.t)
      requires Progress(s0, s, rep, mnNow, fired, pend.dummy)
      modifies this`timercnt, this`activecnt, this`rfeeds, timers, pend`queues,
        pend.watchers`at, pend.watchers`active, pend.watchers`pending
      ensures Valid() && s' == Now() && Knows(rep) && Progress(s0, s', rep, mnNow, fired', pend.dummy)
      ensures |Due(s'.t, mnNow)| < |Due(s.t, mnNow)|
      ensures Rest() == old(Rest())
    {
      ghost var e := timers.a[HEAP0];
      s' := FireRoot(s, rep);
      ProgressStep(s0, s, rep, mnNow, fired, pend.dummy, e, s');
      fired' := fired + [e];
    }

    ghost predicate Firable(w: Watcher)
      reads pend`watchers, w`priority
    {
      w in pend.watchers && EV_MINPRI <= w.priority <= EV_MAXPRI
    }

    /** Feed the timers collected, the last one first. */
    method FeedReverseDone(revents: Events, ghost s0: Snapshot, ghost fired: seq<Anhe>) returns (ghost s: Snapshot)
      requires Valid() && rfeeds != [] && s0 == Now() && rfeeds == WatchersIn(fired)
      requires forall i :: 0 <= i < |fired| ==> Firable(fired[i].w)
      modifies this`rfeeds, pend`queues, pend.watchers`pending
      ensures Valid() && rfeeds == [] && s == Now() && Feeding(s0, s, fired, 0, revents)
    {
      s := s0;
      FeedingStarts(s0, fired, revents);
      while true
        invariant rfeeds != [] && pend.Valid() && s == Now() && Feeding(s0, s, fired, |rfeeds|, revents)
        decreases |rfeeds|
      {
        s := FeedOne(revents, s0, s, fired);
        if |rfeeds| == 0 { break; }
      }
    }

    method FeedOne(revents: Events, ghost s0: Snapshot, ghost s: Snapshot, ghost fired: seq<Anhe>) returns (ghost s': Snapshot)
      requires pend.Valid() && rfeeds != [] && s == Now() && Feeding(s0, s, fired, |rfeeds|, revents)
      requires forall i :: 0 <= i < |fired| ==> Firable(fired[i].w)
      modifies this`rfeeds, pend`queues, pend.watchers`pending
      ensures pend.Valid() && s' == Now() && Feeding(s0, s', fired, |rfeeds|, revents) && |rfeeds| == old(|rfeeds|) - 1
    {
      var n := |rfeeds| - 1;
      var w := rfeeds[n];
      assert w == fired[n].w;
      rfeeds := rfeeds[..n];
      assert pend.Pending() == s.p && Times() == s.t;
      pend.FeedEvent(w, revents);
      s' := Snapshot(s.t, Apply(s.p, Feed(w, revents)), pend.queues, rfeeds);
      FeedingStep(s0, s, fired, n, revents, s', AbsPri(w.priority));
    }

    lemma AllFirable()
      requires Valid()
      ensures forall e :: e in Times() ==> Firable(e.w)
    {
      Started();
      forall e | e in Times() ensures Firable(e.w) { assert TimerOk(e.w); }
    }

    /** Make the timers pending that are due. */
    method TimersReify() returns (ghost fired: seq<Anhe>)
      requires Valid() && rfeeds == []
      modifies this`timercnt, this`activecnt, this`rfeeds, timers, pend`queues,
        pend.watchers`at, pend.watchers`active, pend.watchers`pending
      ensures Valid() && Reified(old(Now()), Now(), old(Repeats()), mnNow, fired)
      ensures (forall e :: e in fired ==> e.w in pend.watchers) && EarlierFirst(old(Now()), old(Repeats()), fired, pend.Places())
      ensures Rest() == old(Rest())
    {
      if timercnt != 0 && timers.a[HEAP0].at < mnNow {
        fired := FireAndFeed(Now(), Repeats());
      } else {
        if timercnt != 0 { FirstIsLeast(); }
        fired := [];
      }
    }

    method FireAndFeed(ghost s0: Snapshot, ghost rep: map<Watcher, real>) returns (ghost fired: seq<Anhe>)
      requires Valid() && rfeeds == [] && timercnt != 0 && timers.a[HEAP0].at < mnNow && s0 == Now() && Knows(rep)
      modifies this`timercnt, this`activecnt, this`rfeeds, timers, pend`queues,
        pend.watchers`at, pend.watchers`active, pend.watchers`pending
      ensures Valid() && Reified(s0, Now(), rep, mnNow, fired)
      ensures (forall e :: e in fired ==> e.w in pend.watchers) && EarlierFirst(s0, rep, fired, pend.Places())
      ensures Rest() == old(Rest())
    {
      FirstIsLeast();
      AllFirable();
      ghost var s1;
      fired, s1 := FireAll(s0, rep);
      FeedFired(s0, s1, rep, fired);
    }

    method FeedFired(ghost s0: Snapshot, ghost s1: Snapshot, ghost rep: map<Watcher, real>, ghost fired: seq<Anhe>)
      requires Valid() && rfeeds != [] && s1 == Now() && Knows(rep) && Progress(s0, s1, rep, mnNow, fired, pend.dummy)
      requires (forall x :: x in s1.t ==> x.at >= mnNow) && forall i :: 0 <= i < |fired| ==> Firable(fired[i].w)
      modifies this`rfeeds, pend`queues, pend.watchers`pending
      ensures Valid() && Reified(s0, Now(), rep, mnNow, fired)
      ensures (forall e :: e in fired ==> e.w in pend.watchers) && EarlierFirst(s0, rep, fired, pend.Places())
    {
      ghost var plb := pend.Places();
      ghost var s2 := FeedReverseDone(EV_TIMER, s1, fired);
      FedEarlierFirst(s0, s1, s2, rep, mnNow, fired, pend.dummy, plb, pend.Places());
    }

    /** The clock has jumped: shift the times of all active timers. */
    method TimersReschedule(adjust: real)
      requires Valid()
      modifies timers, Active()`at
      ensures Valid() && Active() == old(Active())
      ensures forall e :: e in old(Times()) ==> Anhe(e.w, e.at + adjust) in Times()
      ensures pend.queues == old(pend.queues) && pend.Places() == old(pend.Places())
    {
      ghost var pl := pend.Places();
      ShiftAll(adjust);
      assert pend.Places() == pl;
      forall x | x in pend.watchers ensures TimerOk(x) { assert old(TimerOk(x)); }
    }

    method ShiftAll(adjust: real)
      requires HeapValid()
      modifies timers, Active()`at
      ensures HeapValid() && Active() == old(Active())
      ensures forall e :: e in old(Times()) ==> Anhe(e.w, e.at + adjust) in Times()
    {
      ghost var b := timers.a;
      ShiftTimes(adjust);
      ShiftedHeap(b, timers.a, timercnt, adjust);
      ShiftedElements(b, timers.a, timercnt, adjust);
      forall e | e in Times() ensures e.w in Active() && e.at == e.w.at {
        var i: nat :| Within(i, timercnt) && timers.a[i] == e;
      }
    }

    method ShiftTimes(adjust: real)
      requires timercnt + HEAP0 <= |timers.a| && Distinct(timers.a, timercnt) && Cached()
      modifies timers, Active()`at
      ensures Shifted(old(timers.a), timers.a, HEAP0, timercnt + HEAP0, adjust)
      ensures forall k {:trigger Within(k, timercnt)} :: Within(k, timercnt) ==> timers.a[k].w.at == timers.a[k].at
    {
      ghost var b := timers.a;
      forall k | Within(k, timercnt) ensures timers.a[k].at == timers.a[k].w.at { assert timers.a[k] in Times(); }
      var i := 0;
      while i < timercnt
        invariant 0 <= i <= timercnt && Shifted(b, timers.a, HEAP0, i + HEAP0, adjust)
        invariant forall k {:trigger Within(k, timercnt)} :: Within(k, timercnt) ==> b[k].w.at == timers.a[k].at
      {
        var he := timers.a[i + HEAP0];
        assert Within(i + HEAP0, timercnt) && b[i + HEAP0].w in WatchersOf(b, timercnt);
        he.w.at := he.w.at + adjust;
        timers.a := timers.a[i + HEAP0 := Anhe(he.w, he.w.at)];
        i := i + 1;
      }
    }
  }
}
