/** One pass of libev's loop over its timers (ev.c: timers_reify, then ev_invoke_pending): the timers
    that are due are fed, and then they are invoked in the order of their expiry. */
module Expiry {
  import opened Heap
  import opened Pending
  import opened Timers
  import opened Dispatch

  /** What timers_reify does to the pending events: it stops timers that do not repeat, and feeds
      those that have been fired, the last one first. */
  function Forgets(rep: map<Watcher, real>, fired: seq<Anhe>, n: nat): (ops: seq<Op>)
    requires n <= |fired|
    ensures NoDelivery(ops)
  {
    if n == 0 then []
    else
      var w := fired[n - 1].w;
      Forgets(rep, fired, n - 1) + if w in rep && rep[w] == 0.0 then [Forget(w)] else []
  }

  function FeedsFrom(fired: seq<Anhe>, n: nat): (ops: seq<Op>)
    requires n <= |fired|
    ensures NoDelivery(ops)
    decreases |fired| - n
  {
    if n == |fired| then [] else FeedsFrom(fired, n + 1) + [Feed(fired[n].w, EV_TIMER)]
  }

  lemma ApplyNext(h: seq<Op>, op: Op)
    ensures ApplyAll(h + [op]) == Apply(ApplyAll(h), op)
  {
    assert (h + [op])[..|h|] == h;
  }

  lemma {:induction false} ForgetsApply(h: seq<Op>, rep: map<Watcher, real>, fired: seq<Anhe>, n: nat)
    requires n <= |fired|
    ensures ApplyAll(h + Forgets(rep, fired, n)) == ApplyAll(h) - Stopped(rep, fired[..n])
  {
    if n == 0 {
      assert h + Forgets(rep, fired, 0) == h;
    } else {
      ForgetsApply(h, rep, fired, n - 1);
      var w, ops := fired[n - 1].w, Forgets(rep, fired, n - 1);
      assert fired[..n] == fired[..n - 1] + [fired[n - 1]];
      if w in rep && rep[w] == 0.0 {
        ApplyNext(h + ops, Forget(w));
        assert h + Forgets(rep, fired, n) == h + ops + [Forget(w)];
        assert Stopped(rep, fired[..n]) == Stopped(rep, fired[..n - 1]) + {w};
      } else {
        assert h + Forgets(rep, fired, n) == h + ops;
        assert Stopped(rep, fired[..n]) == Stopped(rep, fired[..n - 1]);
      }
    }
  }

  lemma {:induction false} FeedsApply(h: seq<Op>, fired: seq<Anhe>, n: nat)
    requires n <= |fired|
    ensures Fed(ApplyAll(h), ApplyAll(h + FeedsFrom(fired, n)), fired, n, EV_TIMER)
    decreases |fired| - n
  {
    if n == |fired| {
      assert h + FeedsFrom(fired, n) == h;
      assert FiredSet(fired, n) == {};
    } else {
      FeedsApply(h, fired, n + 1);
      var ops := FeedsFrom(fired, n + 1);
      ApplyNext(h + ops, Feed(fired[n].w, EV_TIMER));
      assert h + FeedsFrom(fired, n) == h + ops + [Feed(fired[n].w, EV_TIMER)];
      FeedStep(ApplyAll(h), ApplyAll(h + ops), fired, n, EV_TIMER);
    }
  }

  lemma FedOnce(p0: map<Watcher, Events>, p: map<Watcher, Events>, p': map<Watcher, Events>, fired: seq<Anhe>, ev: Events)
    requires Fed(p0, p, fired, 0, ev) && Fed(p0, p', fired, 0, ev)
    ensures p == p'
  {
  }

  lemma Regroup(h: seq<Op>, ops: seq<Op>, ops': seq<Op>)
    ensures h + (ops + ops') == h + ops + ops'
  {
  }

  /** These operations account for all that timers_reify does to the pending events. */
  lemma ReifiedIsFed(h: seq<Op>, s0: Snapshot, s: Snapshot, rep: map<Watcher, real>, now: real, fired: seq<Anhe>)
    requires s0.p == ApplyAll(h) && Reified(s0, s, rep, now, fired)
    ensures s.p == ApplyAll(h + (Forgets(rep, fired, |fired|) + FeedsFrom(fired, 0)))
  {
    var ops, feeds := Forgets(rep, fired, |fired|), FeedsFrom(fired, 0);
    ForgetsApply(h, rep, fired, |fired|);
    assert fired[..|fired|] == fired;
    var h' := h + ops;
    FeedsApply(h', fired, 0);
    FedOnce(ApplyAll(h'), s.p, ApplyAll(h' + feeds), fired, EV_TIMER);
    Regroup(h, ops, feeds);
  }

  /** Of two timers that are due, not pending before and of the same priority, the first to expire is
      invoked first, unless one of them is cleared. */
  lemma InvokedInOrder(s0: Snapshot, rep: map<Watcher, real>, fired: seq<Anhe>, pl: Places, h: seq<Op>, n: nat,
      i: nat, j: nat, k: nat)
    requires (forall e :: e in fired ==> e.w in pl) && EarlierFirst(s0, rep, fired, pl) && InTurn(h, n, pl)
    requires i < j < |fired| && Idle(s0, rep, fired[i].w) && Idle(s0, rep, fired[j].w)
    requires pl[fired[i].w].pri == pl[fired[j].w].pri
    requires n <= k < |h| && h[k] == Deliver(fired[j].w) && !Forgotten(h, n, k, fired[j].w)
    ensures SettledBefore(h, n, k, fired[i].w)
  {
    assert Precedes(pl, fired[i].w, fired[j].w);
  }

  /** In the history h, from n on: whatever was pending with places pl comes first. */
  ghost predicate ExpiryOrder(s0: Snapshot, rep: map<Watcher, real>, fired: seq<Anhe>, pl: Places, h: seq<Op>, n: nat)
    requires forall e :: e in fired ==> e.w in pl
  {
    forall i, j, k {:trigger fired[i], fired[j], h[k]} ::
      0 <= i < j < |fired| && n <= k < |h| && Idle(s0, rep, fired[i].w) && Idle(s0, rep, fired[j].w) &&
      pl[fired[i].w].pri == pl[fired[j].w].pri && h[k] == Deliver(fired[j].w) && !Forgotten(h, n, k, fired[j].w) ==>
        SettledBefore(h, n, k, fired[i].w)
  }

  lemma AllInOrder(s0: Snapshot, rep: map<Watcher, real>, fired: seq<Anhe>, pl: Places, h: seq<Op>, n: nat)
    requires (forall e :: e in fired ==> e.w in pl) && EarlierFirst(s0, rep, fired, pl) && InTurn(h, n, pl)
    ensures ExpiryOrder(s0, rep, fired, pl, h, n)
  {
    forall i, j, k | 0 <= i < j < |fired| && n <= k < |h| && Idle(s0, rep, fired[i].w) && Idle(s0, rep, fired[j].w) &&
      pl[fired[i].w].pri == pl[fired[j].w].pri && h[k] == Deliver(fired[j].w) && !Forgotten(h, n, k, fired[j].w)
      ensures SettledBefore(h, n, k, fired[i].w)
    {
      InvokedInOrder(s0, rep, fired, pl, h, n, i, j, k);
    }
  }

  /** The timers are fed and what is pending is invoked. Exactly the timers that are due are fired;
      those of one priority that were idle are invoked in the order of their expiry; and if there are
      turns enough, every one of them is invoked, or cleared by a callback. */
  method ExpireAndInvoke(t: TimerLoop, d: Dispatcher, known: seq<Watcher>, turns: nat)
    returns (done: bool, ghost fired: seq<Anhe>, ghost n: nat, ghost pl: Places)
    requires t.Valid() && t.rfeeds == [] && d.Valid() && d.InRange() && d.q == t.pend
    requires forall i :: 0 <= i < |known| ==> known[i] in d.q.watchers
    modifies t`timercnt, t`activecnt, t`rfeeds, t.timers, d, d.q`queues, d.q.dummy`pending
    modifies d.q.watchers`at, d.q.watchers`active, d.q.watchers`pending
    ensures d.Valid() && old(d.history) <= d.history && n <= |d.history|
    ensures (set e | e in fired) == Due(old(t.Times()), t.mnNow) && InOrder(fired)
    ensures (forall e :: e in fired ==> e.w in pl) && ExpiryOrder(old(t.Now()), old(t.Repeats()), fired, pl, d.history, n)
    ensures done ==> forall e :: e in fired ==> Settled(d.history, n, e.w)
  {
    ghost var s0, rep := t.Now(), t.Repeats();
    fired := Expire(t, d);
    n, pl := |d.history|, d.q.Places();
    done := d.InvokePending(known, turns);
    AllInOrder(s0, rep, fired, pl, d.history, n);
  }

  /** timers_reify; the history says what it has done. */
  method Expire(t: TimerLoop, d: Dispatcher) returns (ghost fired: seq<Anhe>)
    requires t.Valid() && t.rfeeds == [] && d.Valid() && d.q == t.pend
    modifies t`timercnt, t`activecnt, t`rfeeds, t.timers, d`history, d.q`queues
    modifies d.q.watchers`at, d.q.watchers`active, d.q.watchers`pending
    ensures d.Valid() && old(d.history) <= d.history
    ensures (set e | e in fired) == Due(old(t.Times()), t.mnNow) && InOrder(fired)
    ensures forall e :: e in fired ==> e.w in d.q.watchers && e.w in d.q.Pending()
    ensures EarlierFirst(old(t.Now()), old(t.Repeats()), fired, d.q.Places())
  {
    ghost var s0, rep, h0 := t.Now(), t.Repeats(), d.history;
    fired := t.TimersReify();
    AllPending(s0, t.Now(), rep, t.mnNow, fired);
    Account(d, h0, s0, t.Now(), rep, t.mnNow, fired);
  }

  /** The history is brought up to date. */
  ghost method Account(d: Dispatcher, h: seq<Op>, s0: Snapshot, s: Snapshot, rep: map<Watcher, real>, now: real, fired: seq<Anhe>)
    requires d.q.Valid() && d.q.Pending() == s.p && d.Told() && d.history == h
    requires s0.p == ApplyAll(h) && Reified(s0, s, rep, now, fired)
    modifies d`history
    ensures d.Valid() && h <= d.history
  {
    ReifiedIsFed(h, s0, s, rep, now, fired);
    d.NoteAll(Forgets(rep, fired, |fired|) + FeedsFrom(fired, 0));
  }

  /** What has been fired is pending. */
  lemma AllPending(s0: Snapshot, s: Snapshot, rep: map<Watcher, real>, now: real, fired: seq<Anhe>)
    requires Reified(s0, s, rep, now, fired)
    ensures forall e :: e in fired ==> e.w in s.p
  {
    forall e | e in fired ensures e.w in s.p {
      var i: nat :| i < |fired| && fired[i] == e;
      assert fired[i].w in FiredSet(fired, 0);
    }
  }
}
