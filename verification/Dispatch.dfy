/** libev's invocation of pending events (ev.c: ev_invoke_pending), with callbacks that may feed and
    clear any watchers. A history says what has been done to the pending events; the queues are
    proved to agree with it, and every callback to get exactly what its history says. */
module Dispatch {
  import opened Heap
  import opened Pending

  // ----- what becomes of the watchers that are pending when the loop starts -----

  /** w is invoked or cleared. */
  predicate Settles(op: Op, w: Watcher) { op == Deliver(w) || op == Forget(w) }

  /** ... since the history had length n. */
  ghost predicate Settled(h: seq<Op>, n: nat, w: Watcher)
  {
    exists i :: n <= i < |h| && Settles(h[i], w)
  }

  ghost predicate IsPending(pl: Places, w: Watcher) { w in pl && pl[w].pending > 0 }

  /** A watcher that was pending at n has been invoked or cleared since then, or is where it was. */
  ghost predicate Stays(h: seq<Op>, n: nat, pl0: Places, pl: Places)
  {
    forall w {:trigger IsPending(pl0, w)} :: w in pl0 && IsPending(pl0, w) && !Settled(h, n, w) ==> w in pl && pl[w] == pl0[w]
  }

  /** Comes first: a higher priority, or with the same priority the higher place. */
  predicate Above(x: Place, y: Place) { x.pri > y.pri || (x.pri == y.pri && x.pending > y.pending) }

  ghost predicate Precedes(pl: Places, w1: Watcher, w2: Watcher)
  {
    IsPending(pl, w1) && IsPending(pl, w2) && Above(pl[w1], pl[w2])
  }

  /** w is cleared before the history has length k. */
  ghost predicate Forgotten(h: seq<Op>, n: nat, k: nat, w: Watcher)
  {
    exists i :: n <= i < k && i < |h| && h[i] == Forget(w)
  }

  ghost predicate SettledBefore(h: seq<Op>, n: nat, k: nat, w: Watcher)
  {
    exists i :: n <= i < k && i < |h| && Settles(h[i], w)
  }

  /** Of two watchers that were pending at n, the first one is invoked first, unless one of them is cleared. */
  ghost predicate InTurn(h: seq<Op>, n: nat, pl0: Places)
  {
    forall k, w1, w2 {:trigger SettledBefore(h, n, k, w1), Forgotten(h, n, k, w2)} ::
      w1 in pl0 && w2 in pl0 && Precedes(pl0, w1, w2) && n <= k < |h| && h[k] == Deliver(w2) && !Forgotten(h, n, k, w2) ==>
        SettledBefore(h, n, k, w1)
  }

  lemma SettledLonger(h: seq<Op>, n: nat, w: Watcher, h': seq<Op>)
    requires h <= h'
    ensures Settled(h, n, w) ==> Settled(h', n, w)
  {
    if Settled(h, n, w) {
      var i :| n <= i < |h| && Settles(h[i], w);
      assert Settles(h'[i], w);
    }
  }

  /** A step that settles w, or leaves it where it is if it was pending. */
  lemma StaysStep(h: seq<Op>, n: nat, pl0: Places, pl: Places, op: Op, pl': Places)
    requires n <= |h| && Stays(h, n, pl0, pl)
    requires forall x :: x in pl && (x != op.w || (op.Feed? && pl[x].pending > 0)) ==> x in pl' && pl'[x] == pl[x]
    ensures Stays(h + [op], n, pl0, pl')
  {
    var h' := h + [op];
    forall w | w in pl0 && IsPending(pl0, w) && !Settled(h', n, w) ensures w in pl' && pl'[w] == pl0[w] {
      SettledLonger(h, n, w, h');
      assert h'[|h|] == op;
    }
  }

  lemma InTurnOther(h: seq<Op>, n: nat, pl0: Places, op: Op)
    requires n <= |h| && InTurn(h, n, pl0) && !op.Deliver?
    ensures InTurn(h + [op], n, pl0)
  {
    var h' := h + [op];
    forall k, w1, w2 | w1 in pl0 && w2 in pl0 && Precedes(pl0, w1, w2) && n <= k < |h'| && h'[k] == Deliver(w2) &&
      !Forgotten(h', n, k, w2)
      ensures SettledBefore(h', n, k, w1)
    {
      BeforeSame(h, op, n, k, w1, w2);
    }
  }

  lemma BeforeSame(h: seq<Op>, op: Op, n: nat, k: nat, w1: Watcher, w2: Watcher)
    requires n <= k <= |h|
    ensures SettledBefore(h + [op], n, k, w1) == SettledBefore(h, n, k, w1)
    ensures Forgotten(h + [op], n, k, w2) == Forgotten(h, n, k, w2)
  {
    assert forall i :: 0 <= i < |h| ==> (h + [op])[i] == h[i];
  }

  /** Invoking w, when nothing that comes before it is left. */
  lemma InTurnDeliver(h: seq<Op>, n: nat, pl0: Places, w: Watcher)
    requires n <= |h| && InTurn(h, n, pl0)
    requires IsPending(pl0, w) && !Settled(h, n, w) ==>
               forall x :: x in pl0 && IsPending(pl0, x) && Above(pl0[x], pl0[w]) ==> Settled(h, n, x)
    ensures InTurn(h + [Deliver(w)], n, pl0)
  {
    var h' := h + [Deliver(w)];
    forall k, w1, w2 | w1 in pl0 && w2 in pl0 && Precedes(pl0, w1, w2) && n <= k < |h'| && h'[k] == Deliver(w2) &&
      !Forgotten(h', n, k, w2)
      ensures SettledBefore(h', n, k, w1)
    {
      BeforeSame(h, Deliver(w), n, k, w1, w2);
      if k == |h| {
        if Settled(h, n, w) {
          var i :| n <= i < |h| && Settles(h[i], w);
          BeforeSame(h, Deliver(w), n, i, w1, w2);
          assert h'[i] == h[i] && !Forgotten(h, n, i, w);
          assert h[i] == Deliver(w);
          assert SettledBefore(h, n, i, w1);
        }
        assert SettledBefore(h, n, k, w1);
      }
    }
  }

  /** The top element of its queue comes first, among those that have not moved. */
  lemma TopIsFirst(qs: Queues, pl: Places, dummy: Watcher, pri: nat, h: seq<Op>, n: nat, pl0: Places, w: Watcher)
    requires Consistent(qs, pl, dummy) && pri < NUMPRI && |qs[pri]| > 0 && w == qs[pri][|qs[pri]| - 1].w
    requires Stays(h, n, pl0, pl) && DoneAbove(h, n, pl0, pri + 1)
    requires IsPending(pl0, w) && !Settled(h, n, w)
    ensures forall x :: x in pl0 && IsPending(pl0, x) && Above(pl0[x], pl0[w]) ==> Settled(h, n, x)
  {
    assert ElementOk(qs, pl, dummy, pri, |qs[pri]| - 1);
    assert WatcherOk(qs, pl, w);
    forall x | x in pl0 && IsPending(pl0, x) && Above(pl0[x], pl0[w]) ensures Settled(h, n, x) {
      assert x in pl ==> WatcherOk(qs, pl, x);
    }
  }

  /** What was pending with a priority of at least pri is settled. */
  ghost predicate DoneAbove(h: seq<Op>, n: nat, pl0: Places, pri: int)
  {
    forall w {:trigger IsPending(pl0, w)} :: w in pl0 && IsPending(pl0, w) && pl0[w].pri >= pri ==> Settled(h, n, w)
  }

  lemma DoneLonger(h: seq<Op>, n: nat, pl0: Places, pri: int, h': seq<Op>)
    requires DoneAbove(h, n, pl0, pri) && h <= h'
    ensures DoneAbove(h', n, pl0, pri)
  {
    forall w | w in pl0 && IsPending(pl0, w) && pl0[w].pri >= pri ensures Settled(h', n, w) {
      SettledLonger(h, n, w, h');
    }
  }

  /** ... also with priority pri, once its queue is empty. */
  lemma QueueDone(qs: Queues, pl: Places, dummy: Watcher, h: seq<Op>, n: nat, pl0: Places, pri: nat)
    requires Consistent(qs, pl, dummy) && pri < NUMPRI && |qs[pri]| == 0
    requires Stays(h, n, pl0, pl) && DoneAbove(h, n, pl0, pri + 1)
    ensures DoneAbove(h, n, pl0, pri)
  {
    forall w | w in pl0 && IsPending(pl0, w) && pl0[w].pri >= pri ensures Settled(h, n, w) {
      assert w in pl ==> WatcherOk(qs, pl, w);
    }
  }

  /** The priorities of pending watchers are in range. */
  lemma AllInRange(qs: Queues, pl: Places, dummy: Watcher, h: seq<Op>)
    requires Consistent(qs, pl, dummy)
    ensures DoneAbove(h, |h|, pl, NUMPRI) && Stays(h, |h|, pl, pl) && InTurn(h, |h|, pl)
  {
    forall w | w in pl && IsPending(pl, w) ensures pl[w].pri < NUMPRI {
      assert WatcherOk(qs, pl, w);
    }
  }

  lemma AllSettled(qs: Queues, pl: Places, dummy: Watcher, h: seq<Op>, n: nat)
    requires Consistent(qs, pl, dummy) && DoneAbove(h, n, pl, 0)
    ensures forall w :: w in View(qs, pl) ==> Settled(h, n, w)
  {
    forall w | w in View(qs, pl) ensures Settled(h, n, w) {
      assert WatcherOk(qs, pl, w) && IsPending(pl, w);
    }
  }

  /** The number of elements in all queues. */
  function Total(qs: Queues): nat
  {
    if qs == [] then 0 else |qs[0]| + Total(qs[1..])
  }

  lemma {:induction false} TotalUpdate(qs: Queues, pri: nat, r: seq<Anpending>)
    requires pri < |qs|
    ensures Total(qs[pri := r]) == Total(qs) - |qs[pri]| + |r|
  {
    if pri == 0 {
      assert qs[pri := r][1..] == qs[1..];
    } else {
      TotalUpdate(qs[1..], pri - 1, r);
      assert qs[pri := r][1..] == qs[1..][pri - 1 := r];
    }
  }

  lemma TotalPushed(qs: Queues, pri: nat, e: Anpending)
    requires pri < |qs|
    ensures Total(Pushed(qs, pri, e)) == Total(qs) + 1
  {
    TotalUpdate(qs, pri, qs[pri] + [e]);
  }

  lemma TotalPopped(qs: Queues, pri: nat)
    requires pri < |qs| && |qs[pri]| > 0
    ensures Total(Popped(qs, pri)) == Total(qs) - 1
  {
    TotalUpdate(qs, pri, qs[pri][..|qs[pri]| - 1]);
  }

  lemma {:induction false} TotalSame(qs: Queues, qs': Queues)
    requires |qs'| == |qs| && forall p :: 0 <= p < |qs| ==> |qs'[p]| == |qs[p]|
    ensures Total(qs') == Total(qs)
  {
    if qs != [] { TotalSame(qs[1..], qs'[1..]); }
  }

  /** How often something is fed. */
  function Feeds(h: seq<Op>): nat
  {
    if h == [] then 0 else Feeds(h[..|h| - 1]) + if h[|h| - 1].Feed? then 1 else 0
  }

  lemma FeedsNext(h: seq<Op>, op: Op)
    ensures Feeds(h + [op]) == Feeds(h) + if op.Feed? then 1 else 0
  {
    assert (h + [op])[..|h|] == h;
  }

  /** Taking and invoking the top element. */
  lemma Taken(qs: Queues, pl: Places, dummy: Watcher, pri: nat, h: seq<Op>, n: nat, pl0: Places)
    requires Consistent(qs, pl, dummy) && pri < NUMPRI && |qs[pri]| > 0 && n <= |h|
    requires Stays(h, n, pl0, pl) && InTurn(h, n, pl0) && DoneAbove(h, n, pl0, pri + 1)
    ensures var w := qs[pri][|qs[pri]| - 1].w;
            var h' := h + [Deliver(w)];
            Stays(h', n, pl0, Unmarked(pl, w)) && InTurn(h', n, pl0) && DoneAbove(h', n, pl0, pri + 1) &&
            Total(Popped(qs, pri)) == Total(qs) - 1 && Feeds(h') == Feeds(h)
  {
    var w := qs[pri][|qs[pri]| - 1].w;
    if IsPending(pl0, w) && !Settled(h, n, w) { TopIsFirst(qs, pl, dummy, pri, h, n, pl0, w); }
    FeedsNext(h, Deliver(w));
    StaysStep(h, n, pl0, pl, Deliver(w), Unmarked(pl, w));
    InTurnDeliver(h, n, pl0, w);
    DoneLonger(h, n, pl0, pri + 1, h + [Deliver(w)]);
    TotalPopped(qs, pri);
  }

  /** A callback is invoked for a watcher, with events. */
  datatype Invocation = Invocation(w: Watcher, events: Events)

  /** The callbacks that a history demands: one for each watcher that is taken off, with exactly the events
      it was fed since it was last taken off or cleared; none for the dummy. */
  ghost function CallsOf(h: seq<Op>, dummy: Watcher): seq<Invocation>
  {
    if h == [] then []
    else
      var before, last := h[..|h| - 1], h[|h| - 1];
      if last.Deliver? && last.w != dummy then CallsOf(before, dummy) + [Invocation(last.w, FedSince(before, last.w))]
      else CallsOf(before, dummy)
  }

  lemma CallsNext(h: seq<Op>, op: Op, dummy: Watcher)
    ensures CallsOf(h + [op], dummy) ==
            CallsOf(h, dummy) + if op.Deliver? && op.w != dummy then [Invocation(op.w, FedSince(h, op.w))] else []
  {
    assert (h + [op])[..|h|] == h;
  }

  ghost predicate NoDelivery(ops: seq<Op>) { forall i :: 0 <= i < |ops| ==> !ops[i].Deliver? }

  lemma {:induction false} NoCalls(h: seq<Op>, ops: seq<Op>, dummy: Watcher)
    requires NoDelivery(ops)
    ensures CallsOf(h + ops, dummy) == CallsOf(h, dummy)
  {
    if ops == [] {
      assert h + ops == h;
    } else {
      var before := ops[..|ops| - 1];
      NoCalls(h, before, dummy);
      CallsNext(h + before, ops[|ops| - 1], dummy);
      assert h + ops == h + before + [ops[|ops| - 1]];
    }
  }

  class Dispatcher {
    const q: PendingQueues
    ghost var history: seq<Op>
    ghost var calls: seq<Invocation>

    constructor (q: PendingQueues)
      requires q.Valid() && q.Pending() == map[]
      ensures this.q == q && Valid() && history == []
    {
      this.q, history, calls := q, [], [];
    }

    /** What each watcher is waiting to get is what its history says. */
    ghost predicate Agrees()
      reads this, q, q.dummy`pending, q.watchers`priority, q.watchers`pending
    {
      q.Valid() && q.Pending() == ApplyAll(history)
    }

    /** ... and so are the callbacks that have been invoked. */
    ghost predicate Valid()
      reads this, q, q.dummy`pending, q.watchers`priority, q.watchers`pending
    {
      Agrees() && Told()
    }

    ghost predicate Told()
      reads this`calls, this`history
    {
      var ok := calls == CallsOf(history, q.dummy);
      ok
    }

    /** The priorities of the watchers are in range. */
    ghost predicate InRange()
      reads q`watchers, q.watchers`priority
    {
      forall w :: w in q.watchers ==> EV_MINPRI <= w.priority <= EV_MAXPRI
    }

    /** One more event has happened. */
    ghost method Note(op: Op)
      modifies this`history
      ensures history == old(history) + [op] && ApplyAll(history) == Apply(ApplyAll(old(history)), op)
      ensures if op.Deliver? && op.w != q.dummy
              then CallsOf(history, q.dummy) == CallsOf(old(history), q.dummy) + [Invocation(op.w, FedSince(old(history), op.w))]
              else old(Told()) ==> Told()
    {
      CallsNext(history, op, q.dummy);
      history := history + [op];
      assert history[..|history| - 1] == old(history);
    }

    /** Others have fed and cleared watchers. */
    ghost method NoteAll(ops: seq<Op>)
      requires q.Valid() && q.Pending() == ApplyAll(history + ops)
      requires Told() && NoDelivery(ops)
      modifies this`history
      ensures Valid() && history == old(history) + ops
    {
      NoCalls(history, ops, q.dummy);
      history := history + ops;
    }

    method FeedEvent(w: Watcher, revents: Events)
      requires Valid() && w in q.watchers && EV_MINPRI <= w.priority <= EV_MAXPRI
      modifies this, q`queues, w`pending
      ensures Valid() && history == old(history) + [Feed(w, revents)]
      ensures q.queues == Pushed(old(q.queues), AbsPri(w.priority), Anpending(w, revents)) || SameShape(old(q.queues), q.queues)
      ensures old(w.pending) > 0 ==> w.pending == old(w.pending)
    {
      q.FeedEvent(w, revents);
      Note(Feed(w, revents));
    }

    method ClearPending(w: Watcher) returns (events: Events)
      requires Valid() && w in q.watchers
      modifies this, q`queues, w`pending
      ensures Valid() && history == old(history) + [Forget(w)] && events == FedSince(old(history), w)
      ensures q.queues == Without(old(q.queues), w, q.dummy)
    {
      WaitingIsFedSince(history, w);
      events := q.ClearPending(w);
      Note(Forget(w));
    }

    /** The top element of a queue is taken off; unless it was cleared, its watcher has been fed since
        it was last cleared or invoked, and gets exactly the bits it was fed since then. */
    method TakeTop(pri: nat) returns (w: Watcher, events: Events)
      requires Valid() && pri < NUMPRI && |q.queues[pri]| > 0
      modifies this, q`queues, q.dummy`pending, q.watchers`pending
      ensures Agrees() && history == old(history) + [Deliver(w)] && w == old(q.queues)[pri][|old(q.queues)[pri]| - 1].w
      ensures w == q.dummy || (FedAgain(old(history), w) && events == FedSince(old(history), w))
      ensures CallsOf(history, q.dummy) == calls + (if w == q.dummy then [] else [Invocation(w, events)]) && calls == old(calls)
      ensures q.queues == Popped(old(q.queues), pri)
      ensures q.Places() == Unmarked(old(q.Places()), w)
    {
      assert ElementOk(q.queues, q.Places(), q.dummy, pri, |q.queues[pri]| - 1);
      w, events := q.TakeTop(pri);
      WaitingIsFedSince(history, w);
      Note(Deliver(w));
    }

    /** The callback of w is invoked: it may feed and clear watchers as it likes. */
    method Callback(w: Watcher, events: Events, known: seq<Watcher>, ghost n: nat, ghost pl0: Places)
      requires Agrees() && CallsOf(history, q.dummy) == calls + [Invocation(w, events)]
      requires InRange() && forall i :: 0 <= i < |known| ==> known[i] in q.watchers
      requires n <= |history| && Stays(history, n, pl0, q.Places()) && InTurn(history, n, pl0)
      modifies this, q`queues, q.watchers`pending
      ensures Valid() && old(history) <= history && Stays(history, n, pl0, q.Places()) && InTurn(history, n, pl0)
      ensures Total(q.queues) - Feeds(history) <= old(Total(q.queues) - Feeds(history))
    {
      calls := calls + [Invocation(w, events)];
      var i: nat := *;
      while i > 0
        invariant Valid() && old(history) <= history && Stays(history, n, pl0, q.Places()) && InTurn(history, n, pl0)
        invariant Total(q.queues) - Feeds(history) <= old(Total(q.queues) - Feeds(history))
      {
        var j, feed: bool := *, *;
        var ev: Events := *;
        if 0 <= j < |known| { Act(known[j], feed, ev, n, pl0); }
        i := i - 1;
      }
    }

    /** One thing that a callback may do. */
    method Act(w: Watcher, feed: bool, ev: Events, ghost n: nat, ghost pl0: Places)
      requires Valid() && w in q.watchers && EV_MINPRI <= w.priority <= EV_MAXPRI
      requires n <= |history| && Stays(history, n, pl0, q.Places()) && InTurn(history, n, pl0)
      modifies this, q`queues, w`pending
      ensures Valid() && old(history) <= history && Stays(history, n, pl0, q.Places()) && InTurn(history, n, pl0)
      ensures Total(q.queues) - Feeds(history) <= old(Total(q.queues) - Feeds(history))
    {
      ghost var h, pl, qs := history, q.Places(), q.queues;
      ghost var op := if feed then Feed(w, ev) else Forget(w);
      if feed { FeedEvent(w, ev); } else { var _ := ClearPending(w); }
      FeedsNext(h, op);
      StaysStep(h, n, pl0, pl, op, q.Places());
      InTurnOther(h, n, pl0, op);
      assert Total(q.queues) <= Total(qs) + if feed then 1 else 0 by {
        if feed { TotalPushed(qs, AbsPri(w.priority), Anpending(w, ev)); }
        if forall p :: 0 <= p < |qs| ==> |q.queues[p]| == |qs[p]| { TotalSame(qs, q.queues); }
      }
    }

    /** One turn of the inner loop: the top element's callback is invoked. */
    method Invoke(known: seq<Watcher>, pri: nat, ghost n: nat, ghost pl0: Places)
      requires Valid() && InRange() && forall i :: 0 <= i < |known| ==> known[i] in q.watchers
      requires pri < NUMPRI && |q.queues[pri]| > 0
      requires n <= |history| && Stays(history, n, pl0, q.Places()) && InTurn(history, n, pl0)
      requires DoneAbove(history, n, pl0, pri + 1)
      modifies this, q`queues, q.dummy`pending, q.watchers`pending
      ensures Valid() && old(history) <= history && Stays(history, n, pl0, q.Places()) && InTurn(history, n, pl0)
      ensures DoneAbove(history, n, pl0, pri + 1)
      ensures Total(q.queues) - Feeds(history) < old(Total(q.queues) - Feeds(history))
    {
      Taken(q.queues, q.Places(), q.dummy, pri, history, n, pl0);
      var w, events := TakeTop(pri);
      if w != q.dummy {
        ghost var h := history;
        Callback(w, events, known, n, pl0);
        DoneLonger(h, n, pl0, pri + 1, history);
      }
    }

    /** ev_invoke_pending. Callbacks might go on feeding for ever, so there are at most `turns` turns;
        that is enough if there are as many as there are elements to begin with and events fed by the
        callbacks. Then every watcher that was pending has been invoked or cleared, and in any case
        they are invoked in the order of their priorities and places. */
    method InvokePending(known: seq<Watcher>, turns: nat) returns (done: bool)
      requires Valid() && InRange() && forall i :: 0 <= i < |known| ==> known[i] in q.watchers
      modifies this, q`queues, q.dummy`pending, q.watchers`pending
      ensures Valid() && old(history) <= history
      ensures done ==> |q.queues[0]| == 0
      ensures done ==> forall w :: w in old(q.Pending()) ==> Settled(history, |old(history)|, w)
      ensures InTurn(history, |old(history)|, old(q.Places()))
      ensures turns >= old(Total(q.queues)) + Feeds(history) - Feeds(old(history)) ==> done
    {
      ghost var n, pl0, qs0 := |history|, q.Places(), q.queues;
      ghost var size0 := Total(q.queues) - Feeds(history);
      var pri: nat, left := NUMPRI, turns;
      AllInRange(qs0, pl0, q.dummy, history);
      while pri > 0
        invariant pri <= NUMPRI && Valid() && old(history) <= history
        invariant pri < NUMPRI ==> |q.queues[pri]| == 0
        invariant Stays(history, n, pl0, q.Places()) && InTurn(history, n, pl0) && DoneAbove(history, n, pl0, pri)
        invariant Total(q.queues) - Feeds(history) <= size0 - (turns - left)
      {
        pri := pri - 1;
        while |q.queues[pri]| > 0
          invariant Valid() && old(history) <= history
          invariant Stays(history, n, pl0, q.Places()) && InTurn(history, n, pl0) && DoneAbove(history, n, pl0, pri + 1)
          invariant Total(q.queues) - Feeds(history) <= size0 - (turns - left)
          decreases left
        {
          if left == 0 {
            TotalUpdate(q.queues, pri, []);
            return false;
          }
          left := left - 1;
          Invoke(known, pri, n, pl0);
        }
        QueueDone(q.queues, q.Places(), q.dummy, history, n, pl0, pri);
      }
      AllSettled(qs0, pl0, q.dummy, history, n);
      return true;
    }
  }
}
