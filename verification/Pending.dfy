/** libev's queues of pending events (ev.c: ev_feed_event, clear_pending, ev_clear_pending,
    ev_invoke_pending), one per priority. A queue is used as a stack; an element whose watcher has
    been cleared stays behind, pointing to a dummy watcher. */
module Pending {
  import opened Heap

  const EV_MINPRI := -2
  const EV_MAXPRI := 2
  const NUMPRI := EV_MAXPRI - EV_MINPRI + 1

  function AbsPri(priority: int): int { priority - EV_MINPRI }

  /** A mask of event bits. */
  type Events = set<nat>

  datatype Anpending = Anpending(w: Watcher, events: Events)

  type Queues = seq<seq<Anpending>>

  /** What a watcher says about itself: its priority, and its `pending` field. */
  datatype Place = Place(pri: int, pending: nat)

  type Places = map<Watcher, Place>

  // ----- the invariant, on values -----

  /** An element is a cleared one, or its watcher says that it is here. */
  ghost predicate ElementOk(qs: Queues, pl: Places, dummy: Watcher, p: int, j: int)
    requires 0 <= p < |qs| && 0 <= j < |qs[p]|
  {
    var w := qs[p][j].w;
    w == dummy || (w in pl && pl[w] == Place(p, j + 1))
  }

  /** A pending watcher has its element. */
  ghost predicate WatcherOk(qs: Queues, pl: Places, w: Watcher)
    requires w in pl
  {
    var pri, n := pl[w].pri, pl[w].pending;
    n > 0 ==> 0 <= pri < |qs| && n <= |qs[pri]| && qs[pri][n - 1].w == w
  }

  ghost predicate Consistent(qs: Queues, pl: Places, dummy: Watcher)
  {
    |qs| == NUMPRI && dummy !in pl &&
    (forall p, j {:trigger ElementOk(qs, pl, dummy, p, j)} ::
      0 <= p < NUMPRI && 0 <= j < |qs[p]| ==> ElementOk(qs, pl, dummy, p, j)) &&
    (forall w {:trigger WatcherOk(qs, pl, w)} :: w in pl ==> WatcherOk(qs, pl, w))
  }

  ghost function EventsOf(qs: Queues, pl: Places, w: Watcher): Events
    requires w in pl && WatcherOk(qs, pl, w) && pl[w].pending > 0
  {
    qs[pl[w].pri][pl[w].pending - 1].events
  }

  /** The events each pending watcher is waiting to get. */
  ghost function View(qs: Queues, pl: Places): (m: map<Watcher, Events>)
    requires forall w {:trigger WatcherOk(qs, pl, w)} :: w in pl ==> WatcherOk(qs, pl, w)
  {
    map w | w in pl && pl[w].pending > 0 && WatcherOk(qs, pl, w) :: EventsOf(qs, pl, w)
  }

  /** View extended to all watchers. */
  function Waiting(m: map<Watcher, Events>, w: Watcher): Events { if w in m then m[w] else {} }

  function Pushed(qs: Queues, pri: nat, e: Anpending): (r: Queues)
    requires pri < |qs|
  {
    qs[pri := qs[pri] + [e]]
  }

  function Replaced(qs: Queues, pri: nat, j: nat, e: Anpending): (r: Queues)
    requires pri < |qs| && j < |qs[pri]|
  {
    qs[pri := qs[pri][j := e]]
  }

  function Popped(qs: Queues, pri: nat): (r: Queues)
    requires pri < |qs| && |qs[pri]| > 0
  {
    qs[pri := qs[pri][..|qs[pri]| - 1]]
  }

  /** The watcher says that it is not pending. */
  function Unmarked(pl: Places, w: Watcher): Places { if w in pl then pl[w := pl[w].(pending := 0)] else pl }

  /** The same watchers in the same places. */
  ghost predicate SameShape(qs: Queues, qs': Queues)
  {
    |qs'| == |qs| && forall p :: 0 <= p < |qs| ==>
      |qs'[p]| == |qs[p]| && forall j :: 0 <= j < |qs[p]| ==> qs'[p][j].w == qs[p][j].w
  }

  /** What feeding makes of the queues: an element more, or the same watchers in the same places. */
  ghost predicate Queued(qs: Queues, qs': Queues, pri: int, e: Anpending)
  {
    match e
    case Anpending(w, ev) => SameShape(qs, qs') || (0 <= pri < |qs| && qs' == Pushed(qs, pri, e))
  }

  /** Feeding a watcher that is not pending. */
  lemma FeedNew(qs: Queues, pl: Places, dummy: Watcher, w: Watcher, ev: Events)
    requires Consistent(qs, pl, dummy) && w in pl && pl[w].pending == 0 && 0 <= pl[w].pri < NUMPRI
    ensures var pri := pl[w].pri;
            var qs', pl' := Pushed(qs, pri, Anpending(w, ev)), pl[w := Place(pri, |qs[pri]| + 1)];
            Consistent(qs', pl', dummy) && View(qs', pl') == View(qs, pl)[w := Waiting(View(qs, pl), w) + ev]
  {
    var pri := pl[w].pri;
    var qs', pl' := Pushed(qs, pri, Anpending(w, ev)), pl[w := Place(pri, |qs[pri]| + 1)];
    forall p, j | 0 <= p < NUMPRI && 0 <= j < |qs'[p]| ensures ElementOk(qs', pl', dummy, p, j) {
      if j < |qs[p]| { assert ElementOk(qs, pl, dummy, p, j); }
    }
    forall x | x in pl' ensures WatcherOk(qs', pl', x) { assert WatcherOk(qs, pl, x); }
    assert {} + ev == ev;
  }

  /** Feeding a watcher that is pending already. */
  lemma FeedMore(qs: Queues, pl: Places, dummy: Watcher, w: Watcher, ev: Events)
    requires Consistent(qs, pl, dummy) && w in pl && pl[w].pending > 0 && WatcherOk(qs, pl, w)
    ensures var pri, j := pl[w].pri, pl[w].pending - 1;
            var qs' := Replaced(qs, pri, j, Anpending(w, qs[pri][j].events + ev));
            Consistent(qs', pl, dummy) && View(qs', pl) == View(qs, pl)[w := Waiting(View(qs, pl), w) + ev]
  {
    var pri, k := pl[w].pri, pl[w].pending - 1;
    var qs' := Replaced(qs, pri, k, Anpending(w, qs[pri][k].events + ev));
    forall p, j | 0 <= p < NUMPRI && 0 <= j < |qs'[p]| ensures ElementOk(qs', pl, dummy, p, j) {
      assert ElementOk(qs, pl, dummy, p, j);
    }
    forall x | x in pl ensures WatcherOk(qs', pl, x) { assert WatcherOk(qs, pl, x); }
  }

  /** Leaving a watcher's element to the dummy. */
  lemma Clear(qs: Queues, pl: Places, dummy: Watcher, w: Watcher)
    requires Consistent(qs, pl, dummy) && w in pl && pl[w].pending > 0 && WatcherOk(qs, pl, w)
    ensures var pri, j := pl[w].pri, pl[w].pending - 1;
            var qs', pl' := Replaced(qs, pri, j, qs[pri][j].(w := dummy)), pl[w := pl[w].(pending := 0)];
            Consistent(qs', pl', dummy) && View(qs', pl') == View(qs, pl) - {w}
  {
    var pri, k := pl[w].pri, pl[w].pending - 1;
    var qs', pl' := Replaced(qs, pri, k, qs[pri][k].(w := dummy)), pl[w := pl[w].(pending := 0)];
    forall p, j | 0 <= p < NUMPRI && 0 <= j < |qs'[p]| ensures ElementOk(qs', pl', dummy, p, j) {
      assert ElementOk(qs, pl, dummy, p, j);
    }
    forall x | x in pl' ensures WatcherOk(qs', pl', x) { assert WatcherOk(qs, pl, x); }
  }

  /** No other element points to the watcher. */
  lemma ClearOnly(qs: Queues, pl: Places, dummy: Watcher, w: Watcher)
    requires Consistent(qs, pl, dummy) && w in pl && pl[w].pending > 0 && WatcherOk(qs, pl, w)
    ensures var pri, j := pl[w].pri, pl[w].pending - 1;
            Replaced(qs, pri, j, qs[pri][j].(w := dummy)) == Without(qs, w, dummy)
  {
    var pri, k := pl[w].pri, pl[w].pending - 1;
    var qs' := Replaced(qs, pri, k, qs[pri][k].(w := dummy));
    forall p | 0 <= p < NUMPRI ensures qs'[p] == Without(qs, w, dummy)[p] {
      forall j | 0 <= j < |qs[p]| ensures qs'[p][j] == WithoutIn(qs[p], w, dummy)[j] {
        assert ElementOk(qs, pl, dummy, p, j);
      }
    }
  }

  /** A watcher that is not pending has no element. */
  lemma NothingToClear(qs: Queues, pl: Places, dummy: Watcher, w: Watcher)
    requires Consistent(qs, pl, dummy) && w in pl && pl[w].pending == 0
    ensures Without(qs, w, dummy) == qs && w !in View(qs, pl)
  {
    forall p, j | 0 <= p < NUMPRI && 0 <= j < |qs[p]| ensures qs[p][j].w != w {
      assert ElementOk(qs, pl, dummy, p, j);
    }
    forall p | 0 <= p < NUMPRI ensures Without(qs, w, dummy)[p] == qs[p] {}
  }

  /** Forgetting a watcher's events, pending or not. */
  lemma ClearAny(qs: Queues, pl: Places, dummy: Watcher, w: Watcher)
    requires Consistent(qs, pl, dummy) && w in pl
    ensures Consistent(Without(qs, w, dummy), Unmarked(pl, w), dummy)
    ensures View(Without(qs, w, dummy), Unmarked(pl, w)) == Apply(View(qs, pl), Forget(w))
    ensures WatcherOk(qs, pl, w)
    ensures var pri, j := pl[w].pri, pl[w].pending - 1;
            if j >= 0 then Without(qs, w, dummy) == Replaced(qs, pri, j, qs[pri][j].(w := dummy)) else Without(qs, w, dummy) == qs
    ensures Waiting(View(qs, pl), w) == if pl[w].pending > 0 then EventsOf(qs, pl, w) else {}
  {
    assert WatcherOk(qs, pl, w);
    if pl[w].pending > 0 {
      Clear(qs, pl, dummy, w);
      ClearOnly(qs, pl, dummy, w);
    } else {
      NothingToClear(qs, pl, dummy, w);
      assert Unmarked(pl, w) == pl;
      assert View(qs, pl) - {w} == View(qs, pl);
    }
  }

  /** Taking the top element off a queue. */
  lemma Take(qs: Queues, pl: Places, dummy: Watcher, pri: nat)
    requires Consistent(qs, pl, dummy) && pri < NUMPRI && |qs[pri]| > 0
    ensures var e := qs[pri][|qs[pri]| - 1];
            var pl' := Unmarked(pl, e.w);
            Consistent(Popped(qs, pri), pl', dummy) && View(Popped(qs, pri), pl') == View(qs, pl) - {e.w} &&
            (e.w == dummy || (e.w in View(qs, pl) && pl[e.w].pri == pri && View(qs, pl)[e.w] == e.events))
  {
    var e := qs[pri][|qs[pri]| - 1];
    var qs', pl' := Popped(qs, pri), Unmarked(pl, e.w);
    assert ElementOk(qs, pl, dummy, pri, |qs[pri]| - 1);
    assert e.w in pl ==> WatcherOk(qs, pl, e.w);
    forall p, j | 0 <= p < NUMPRI && 0 <= j < |qs'[p]| ensures ElementOk(qs', pl', dummy, p, j) {
      assert ElementOk(qs, pl, dummy, p, j);
    }
    forall x | x in pl' ensures WatcherOk(qs', pl', x) { assert WatcherOk(qs, pl, x); }
  }

  /** The queues with w's element, if there is one, left to the dummy. */
  function Without(qs: Queues, w: Watcher, dummy: Watcher): (r: Queues)
    ensures |r| == |qs| && forall p :: 0 <= p < |qs| ==> r[p] == WithoutIn(qs[p], w, dummy)
  {
    seq(|qs|, p requires 0 <= p < |qs| => WithoutIn(qs[p], w, dummy))
  }

  function WithoutIn(q: seq<Anpending>, w: Watcher, dummy: Watcher): (r: seq<Anpending>)
    ensures |r| == |q|
    ensures forall j :: 0 <= j < |q| ==> r[j] == if q[j].w == w then q[j].(w := dummy) else q[j]
  {
    seq(|q|, j requires 0 <= j < |q| => if q[j].w == w then q[j].(w := dummy) else q[j])
  }

  // ----- what happens to an event -----

  /** What callers and the loop do to the pending events of the watchers: ev_feed_event, clearing
      or stopping, and invoking the callback. */
  datatype Op = Feed(w: Watcher, events: Events) | Forget(w: Watcher) | Deliver(w: Watcher)

  /** The effect on the pending events; the methods below are proved to have it. */
  function Apply(m: map<Watcher, Events>, op: Op): map<Watcher, Events>
  {
    match op
    case Feed(w, ev) => m[w := Waiting(m, w) + ev]
    case Forget(w) => m - {w}
    case Deliver(w) => m - {w}
  }

  function ApplyAll(ops: seq<Op>): map<Watcher, Events>
  {
    if ops == [] then map[] else Apply(ApplyAll(ops[..|ops| - 1]), ops[|ops| - 1])
  }

  /** The bits fed to w since it was last cleared or invoked. */
  function FedSince(ops: seq<Op>, w: Watcher): Events
  {
    if ops == [] then {}
    else
      var last, before := ops[|ops| - 1], FedSince(ops[..|ops| - 1], w);
      if last.w != w then before else if last.Feed? then before + last.events else {}
  }

  /** Whether w has been fed since it was last cleared or invoked. */
  predicate FedAgain(ops: seq<Op>, w: Watcher)
  {
    ops != [] &&
    var last := ops[|ops| - 1];
    if last.w == w then last.Feed? else FedAgain(ops[..|ops| - 1], w)
  }

  /** Main result: in any order of feeding, clearing and invoking, also from within callbacks, what
      a watcher is waiting to get is exactly what it was fed since it was last cleared or invoked:
      no bit is delivered twice or lost, and a cleared watcher is pending only if fed again. */
  lemma {:induction false} WaitingIsFedSince(ops: seq<Op>, w: Watcher)
    ensures Waiting(ApplyAll(ops), w) == FedSince(ops, w)
    ensures w in ApplyAll(ops) <==> FedAgain(ops, w)
  {
    if ops != [] {
      WaitingIsFedSince(ops[..|ops| - 1], w);
    }
  }

  // ----- the queues -----

  class PendingQueues {
    var queues: Queues
    const dummy: Watcher
    ghost var watchers: set<Watcher>

    constructor (dummy: Watcher)
      requires dummy.pending == 0
      ensures this.dummy == dummy && watchers == {} && Valid()
      ensures queues == seq(NUMPRI, _ => [])
    {
      this.dummy := dummy;
      queues := seq(NUMPRI, _ => []);
      watchers := {};
    }

    ghost function Places(): Places
      reads this, watchers`priority, watchers`pending
    {
      map w | w in watchers :: Place(AbsPri(w.priority), w.pending)
    }

    ghost predicate Valid()
      reads this, dummy`pending, watchers`priority, watchers`pending
    {
      dummy.pending == 0 && Consistent(queues, Places(), dummy)
    }

    /** The events each pending watcher is waiting to get. */
    ghost function Pending(): map<Watcher, Events>
      requires Valid()
      reads this, dummy`pending, watchers`priority, watchers`pending
    {
      View(queues, Places())
    }

    /** Make a watcher pending, or add event bits to one that is. */
    method FeedEvent(w: Watcher, revents: Events)
      requires Valid() && w in watchers && EV_MINPRI <= w.priority <= EV_MAXPRI
      modifies this`queues, w`pending
      ensures Valid() && w.pending > 0
      ensures Pending() == Apply(old(Pending()), Feed(w, revents))
      ensures old(w.pending) == 0 ==> queues == Pushed(old(queues), AbsPri(w.priority), Anpending(w, revents))
      ensures old(w.pending) == 0 ==> w.pending == |queues[AbsPri(w.priority)]|
      ensures old(w.pending) > 0 ==> SameShape(old(queues), queues) && w.pending == old(w.pending)
      ensures Queued(old(queues), queues, AbsPri(w.priority), Anpending(w, revents))
    {
      var pri := AbsPri(w.priority);
      ghost var pl := Places();
      if w.pending > 0 {
        assert WatcherOk(queues, pl, w);
        FeedMore(queues, pl, dummy, w, revents);
        var j := w.pending - 1;
        queues := Replaced(queues, pri, j, Anpending(w, queues[pri][j].events + revents));
        assert Places() == pl;
      } else {
        FeedNew(queues, pl, dummy, w, revents);
        w.pending := |queues[pri]| + 1;
        queues := Pushed(queues, pri, Anpending(w, revents));
        assert Places() == pl[w := Place(pri, w.pending)];
      }
    }

    /** Forget a watcher's pending events; they are returned. The element is left to the dummy. */
    method ClearPending(w: Watcher) returns (events: Events)
      requires Valid() && w in watchers
      modifies this`queues, w`pending
      ensures Valid() && w.pending == 0
      ensures Pending() == Apply(old(Pending()), Forget(w)) && events == Waiting(old(Pending()), w)
      ensures queues == Without(old(queues), w, dummy)
    {
      ghost var qs, pl := queues, Places();
      ClearAny(qs, pl, dummy, w);
      if w.pending > 0 {
        var pri, j := AbsPri(w.priority), w.pending - 1;
        assert WatcherOk(qs, pl, w);
        events := queues[pri][j].events;
        queues := Replaced(queues, pri, j, queues[pri][j].(w := dummy));
        w.pending := 0;
      } else {
        events := {};
      }
      assert Places() == Unmarked(pl, w);
    }

    /** One turn of ev_invoke_pending's inner loop, up to the callback: take the top element. The
        callback of `w` is then called with `events`; the dummy's does nothing. */
    method TakeTop(pri: nat) returns (w: Watcher, events: Events)
      requires Valid() && pri < NUMPRI && |queues[pri]| > 0
      modifies this`queues, queues[pri][|queues[pri]| - 1].w`pending
      ensures Valid()
      ensures w == dummy || (w in old(Pending()) && AbsPri(w.priority) == pri && events == old(Pending())[w])
      ensures Pending() == Apply(old(Pending()), Deliver(w)) && queues == Popped(old(queues), pri)
      ensures Anpending(w, events) == old(queues)[pri][|old(queues)[pri]| - 1]
      ensures Places() == Unmarked(old(Places()), w)
    {
      ghost var pl := Places();
      Take(queues, pl, dummy, pri);
      assert ElementOk(queues, pl, dummy, pri, |queues[pri]| - 1);
      var p := queues[pri][|queues[pri]| - 1];
      queues := Popped(queues, pri);
      p.w.pending := 0;
      w, events := p.w, p.events;
      assert Places() == Unmarked(pl, w);
    }
  }
}
