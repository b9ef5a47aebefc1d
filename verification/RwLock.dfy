/** pdnsd's reader/writer lock (cache.c: lock_cache_r, unlock_cache_r, lock_cache_rw,
    unlock_cache_rw), as steps of any number of threads. Each step is one critical section of
    lock_mutex: from taking the mutex, or being woken with it, to releasing it or going to sleep. */
module RwLock {

  /** A thread sleeps on r_cond or rw_cond, has been woken but has not run yet, or holds the lock. */
  datatype Pc = Out | ReadSleep | ReadWoken | Reading | WriteSleep | WriteWoken | Writing

  datatype Lock = Lock(wLock: bool, rLock: int, rPend: int, rwPend: int, rSusp: bool)

  datatype State = State(lock: Lock, threads: seq<Pc>)

  /** With more pending writers than this, readers are held back. */
  function SuspThresh(rPend: int): int { rPend / 2 + 2 }

  ghost predicate Init(s: State)
  {
    s.lock == Lock(false, 0, 0, 0, false) && forall t :: 0 <= t < |s.threads| ==> s.threads[t] == Out
  }

  /** The condition of lock_cache_r's loop, with its side effect on r_susp: may the reader enter? */
  function TryRead(l: Lock): (r: (Lock, bool))
  {
    var susp := if l.rwPend > SuspThresh(l.rPend) then true else l.rSusp;
    var l' := l.(rSusp := susp);
    if susp || l.wLock then (l', false)
    else (l'.(rLock := l.rLock + 1, rPend := l.rPend - 1), true)
  }

  /** The condition of lock_cache_rw's loop. */
  function TryWrite(l: Lock): (r: (Lock, bool))
  {
    if l.wLock || l.rLock > 0 then (l, false)
    else (l.(wLock := true, rwPend := l.rwPend - 1), true)
  }

  /** pthread_cond_signal on rw_cond wakes at least one sleeper, if there is any. */
  ghost predicate Signalled(ts: seq<Pc>, ts': seq<Pc>)
  {
    |ts'| == |ts| &&
    (forall t :: 0 <= t < |ts| ==> ts'[t] == ts[t] || (ts[t] == WriteSleep && ts'[t] == WriteWoken)) &&
    (AnyIs(ts, WriteSleep) ==> AnyIs(ts', WriteWoken))
  }

  /** pthread_cond_broadcast on r_cond wakes every sleeper. */
  ghost predicate Broadcast(ts: seq<Pc>, ts': seq<Pc>)
  {
    |ts'| == |ts| && forall t :: 0 <= t < |ts| ==> ts'[t] == if ts[t] == ReadSleep then ReadWoken else ts[t]
  }

  ghost predicate AnyIs(ts: seq<Pc>, pc: Pc)
  {
    exists t :: 0 <= t < |ts| && ts[t] == pc
  }

  datatype Action = LockR | WakeR | UnlockR | LockRW | WakeRW | UnlockRW | Spurious

  /** Where the thread that runs ends up, and what becomes of the lock. */
  ghost predicate Enter(s: State, s': State, t: nat, outcome: (Lock, bool), held: Pc, asleep: Pc)
    requires t < |s.threads|
  {
    s'.lock == outcome.0 && s'.threads == s.threads[t := if outcome.1 then held else asleep]
  }

  ghost predicate Next(s: State, s': State, t: nat, a: Action)
  {
    t < |s.threads| &&
    var l, pc := s.lock, s.threads[t];
    match a
    case LockR => pc == Out && Enter(s, s', t, TryRead(l.(rPend := l.rPend + 1)), Reading, ReadSleep)
    case WakeR => pc == ReadWoken && Enter(s, s', t, TryRead(l), Reading, ReadSleep)
    case UnlockR =>
      pc == Reading &&
      var left := if l.rLock > 0 then l.rLock - 1 else l.rLock;
      s'.lock == l.(rLock := left) &&
      if left == 0 then Signalled(s.threads[t := Out], s'.threads) else s'.threads == s.threads[t := Out]
    case LockRW => pc == Out && Enter(s, s', t, TryWrite(l.(rwPend := l.rwPend + 1)), Writing, WriteSleep)
    case WakeRW => pc == WriteWoken && Enter(s, s', t, TryWrite(l), Writing, WriteSleep)
    case UnlockRW =>
      pc == Writing && s'.lock == l.(wLock := false, rSusp := false) &&
      if l.rPend == 0 || l.rwPend > SuspThresh(l.rPend)
      then Signalled(s.threads[t := Out], s'.threads) else Broadcast(s.threads[t := Out], s'.threads)
    case Spurious =>
      s'.lock == l &&
      ((pc == ReadSleep && s'.threads == s.threads[t := ReadWoken]) ||
       (pc == WriteSleep && s'.threads == s.threads[t := WriteWoken]))
  }

  ghost predicate Run(run: seq<State>, who: seq<nat>, what: seq<Action>)
  {
    |run| == |who| + 1 == |what| + 1 && Init(run[0]) &&
    forall i :: 0 <= i < |who| ==> Next(run[i], run[i + 1], who[i], what[i])
  }

  // ----- counting threads -----

  datatype Kind = Nothing | ReadPending | ReadHolding | WritePending | WriteHolding

  function KindOf(pc: Pc): Kind
  {
    match pc
    case Out => Nothing
    case ReadSleep | ReadWoken => ReadPending
    case Reading => ReadHolding
    case WriteSleep | WriteWoken => WritePending
    case Writing => WriteHolding
  }

  ghost function Count(ts: seq<Pc>, k: Kind): nat
  {
    if ts == [] then 0 else (if KindOf(ts[0]) == k then 1 else 0) + Count(ts[1..], k)
  }

  lemma {:induction false} CountUpdate(ts: seq<Pc>, t: nat, pc: Pc, k: Kind)
    requires t < |ts|
    ensures Count(ts[t := pc], k) + (if KindOf(ts[t]) == k then 1 else 0) ==
            Count(ts, k) + (if KindOf(pc) == k then 1 else 0)
  {
    if t == 0 {
      assert ts[0 := pc][1..] == ts[1..];
    } else {
      CountUpdate(ts[1..], t - 1, pc, k);
      assert ts[t := pc][1..] == ts[1..][t - 1 := pc];
    }
  }

  lemma {:induction false} CountSameKinds(ts: seq<Pc>, ts': seq<Pc>, k: Kind)
    requires |ts| == |ts'| && forall t :: 0 <= t < |ts| ==> KindOf(ts[t]) == KindOf(ts'[t])
    ensures Count(ts, k) == Count(ts', k)
  {
    if ts != [] {
      CountSameKinds(ts[1..], ts'[1..], k);
    }
  }

  lemma {:induction false} CountWitness(ts: seq<Pc>, k: Kind) returns (t: nat)
    requires Count(ts, k) > 0
    ensures t < |ts| && KindOf(ts[t]) == k
  {
    if KindOf(ts[0]) == k {
      t := 0;
    } else {
      t := CountWitness(ts[1..], k);
      t := t + 1;
    }
  }

  lemma {:induction false} CountAtLeast(ts: seq<Pc>, t: nat, u: nat, k: Kind)
    requires t < |ts| && u < |ts| && KindOf(ts[t]) == KindOf(ts[u]) == k
    ensures Count(ts, k) >= if t == u then 1 else 2
  {
    CountUpdate(ts, t, if k == Nothing then Reading else Out, k);
    if t != u {
      var rest := ts[t := if k == Nothing then Reading else Out];
      assert rest[u] == ts[u];
      CountUpdate(rest, u, if k == Nothing then Reading else Out, k);
    }
  }

  // ----- the invariant -----

  predicate Free(l: Lock) { !l.wLock && l.rLock == 0 }

  /** The counters count threads, and a writer excludes everybody else. */
  ghost predicate Counted(s: State)
  {
    var l, ts := s.lock, s.threads;
    l.rPend == Count(ts, ReadPending) && l.rwPend == Count(ts, WritePending) &&
    l.rLock == Count(ts, ReadHolding) && Count(ts, WriteHolding) == (if l.wLock then 1 else 0) &&
    (l.wLock ==> l.rLock == 0)
  }

  /** Readers are held back only while there is a writer to clear the way for. */
  ghost predicate SuspendedForWriter(s: State)
  {
    s.lock.rSusp || AnyIs(s.threads, ReadSleep) ==> s.lock.wLock || s.lock.rwPend > 0
  }

  /** A woken reader that would get in if it ran now. */
  ghost predicate ReaderReady(s: State)
  {
    AnyIs(s.threads, ReadWoken) && !s.lock.rSusp && s.lock.rwPend <= SuspThresh(s.lock.rPend)
  }

  /** If the lock is free while a writer sleeps, somebody is about to take it. */
  ghost predicate WriterNotForgotten(s: State)
  {
    Free(s.lock) && AnyIs(s.threads, WriteSleep) ==> AnyIs(s.threads, WriteWoken) || ReaderReady(s)
  }

  ghost predicate Inv(s: State)
  {
    Counted(s) && SuspendedForWriter(s) && WriterNotForgotten(s)
  }

  lemma {:induction false} NobodyCounted(ts: seq<Pc>, k: Kind)
    requires k != Nothing && forall t :: 0 <= t < |ts| ==> ts[t] == Out
    ensures Count(ts, k) == 0
  {
    if ts != [] { NobodyCounted(ts[1..], k); }
  }

  lemma InitInv(s: State)
    requires Init(s)
    ensures Inv(s)
  {
    NobodyCounted(s.threads, ReadPending);
    NobodyCounted(s.threads, WritePending);
    NobodyCounted(s.threads, ReadHolding);
    NobodyCounted(s.threads, WriteHolding);
  }

  /** All counts after one thread has moved and others have been woken. */
  lemma Moved(ts: seq<Pc>, ts': seq<Pc>, t: nat, pc: Pc)
    requires t < |ts| == |ts'|
    requires forall u :: 0 <= u < |ts| ==> KindOf(ts'[u]) == KindOf(ts[t := pc][u])
    ensures forall k :: Count(ts', k) + (if KindOf(ts[t]) == k then 1 else 0) ==
                        Count(ts, k) + (if KindOf(pc) == k then 1 else 0)
  {
    forall k ensures Count(ts', k) + (if KindOf(ts[t]) == k then 1 else 0) ==
                     Count(ts, k) + (if KindOf(pc) == k then 1 else 0) {
      CountUpdate(ts, t, pc, k);
      CountSameKinds(ts', ts[t := pc], k);
    }
  }

  /** Every other thread is where it was. */
  lemma Elsewhere(ts: seq<Pc>, t: nat, pc: Pc)
    requires t < |ts|
    ensures AnyIs(ts[t := pc], pc)
    ensures forall p :: p != ts[t] && AnyIs(ts, p) ==> AnyIs(ts[t := pc], p)
    ensures forall p :: p != pc && AnyIs(ts[t := pc], p) ==> AnyIs(ts, p)
  {
    assert ts[t := pc][t] == pc;
    forall p | p != ts[t] && AnyIs(ts, p) ensures AnyIs(ts[t := pc], p) {
      var u :| 0 <= u < |ts| && ts[u] == p;
      assert ts[t := pc][u] == p;
    }
    forall p | p != pc && AnyIs(ts[t := pc], p) ensures AnyIs(ts, p) {
      var u :| 0 <= u < |ts| && ts[t := pc][u] == p;
      assert ts[u] == p;
    }
  }

  lemma CountsHere(s: State, t: nat)
    requires Counted(s) && t < |s.threads|
    ensures KindOf(s.threads[t]) == ReadPending ==> s.lock.rPend > 0
    ensures KindOf(s.threads[t]) == WritePending ==> s.lock.rwPend > 0
    ensures KindOf(s.threads[t]) == ReadHolding ==> s.lock.rLock > 0
    ensures KindOf(s.threads[t]) == WriteHolding ==> s.lock.wLock
  {
    CountAtLeast(s.threads, t, t, KindOf(s.threads[t]));
  }

  /** A reader asks for the lock, for the first time or after having been woken. */
  lemma ReadKeepsInv(s: State, s': State, t: nat, a: Action)
    requires Inv(s) && Next(s, s', t, a) && (a == LockR || a == WakeR)
    ensures Inv(s')
  {
    CountsHere(s, t);
    Moved(s.threads, s'.threads, t, s'.threads[t]);
    Elsewhere(s.threads, t, s'.threads[t]);
  }

  lemma WriteKeepsInv(s: State, s': State, t: nat, a: Action)
    requires Inv(s) && Next(s, s', t, a) && (a == LockRW || a == WakeRW)
    ensures Inv(s')
  {
    CountsHere(s, t);
    Moved(s.threads, s'.threads, t, s'.threads[t]);
    Elsewhere(s.threads, t, s'.threads[t]);
  }

  lemma SpuriousKeepsInv(s: State, s': State, t: nat)
    requires Inv(s) && Next(s, s', t, Spurious)
    ensures Inv(s')
  {
    Moved(s.threads, s'.threads, t, s'.threads[t]);
    Elsewhere(s.threads, t, s'.threads[t]);
  }

  lemma SignalKeeps(ts: seq<Pc>, ts': seq<Pc>)
    requires Signalled(ts, ts')
    ensures AnyIs(ts', WriteSleep) ==> AnyIs(ts', WriteWoken)
    ensures AnyIs(ts', ReadSleep) ==> AnyIs(ts, ReadSleep)
  {
    if AnyIs(ts', WriteSleep) {
      var t :| 0 <= t < |ts| && ts'[t] == WriteSleep;
      assert ts[t] == WriteSleep;
    }
    if AnyIs(ts', ReadSleep) {
      var t :| 0 <= t < |ts| && ts'[t] == ReadSleep;
      assert ts[t] == ReadSleep;
    }
  }

  lemma UnlockRKeepsInv(s: State, s': State, t: nat)
    requires Inv(s) && Next(s, s', t, UnlockR)
    ensures Inv(s')
  {
    CountsHere(s, t);
    var ts := s.threads[t := Out];
    Moved(s.threads, s'.threads, t, Out);
    Elsewhere(s.threads, t, Out);
    if s.lock.rLock == 1 { SignalKeeps(ts, s'.threads); }
  }

  lemma UnlockRWKeepsInv(s: State, s': State, t: nat)
    requires Inv(s) && Next(s, s', t, UnlockRW)
    ensures Inv(s')
  {
    CountsHere(s, t);
    var ts := s.threads[t := Out];
    Moved(s.threads, s'.threads, t, Out);
    Elsewhere(s.threads, t, Out);
    if s.lock.rPend == 0 || s.lock.rwPend > SuspThresh(s.lock.rPend) {
      SignalKeeps(ts, s'.threads);
      if AnyIs(s'.threads, ReadSleep) {
        var u :| 0 <= u < |s'.threads| && s'.threads[u] == ReadSleep;
        CountAtLeast(s'.threads, u, u, ReadPending);
      }
    } else {
      var u := CountWitness(s'.threads, ReadPending);
      assert s'.threads[u] == ReadWoken;
    }
  }

  lemma StepInv(s: State, s': State, t: nat, a: Action)
    requires Inv(s) && Next(s, s', t, a)
    ensures Inv(s')
  {
    match a
    case LockR => ReadKeepsInv(s, s', t, a);
    case WakeR => ReadKeepsInv(s, s', t, a);
    case UnlockR => UnlockRKeepsInv(s, s', t);
    case LockRW => WriteKeepsInv(s, s', t, a);
    case WakeRW => WriteKeepsInv(s, s', t, a);
    case UnlockRW => UnlockRWKeepsInv(s, s', t);
    case Spurious => SpuriousKeepsInv(s, s', t);
  }

  lemma {:induction false} RunInv(run: seq<State>, who: seq<nat>, what: seq<Action>, k: nat)
    requires Run(run, who, what) && k < |run|
    ensures Inv(run[k])
  {
    if k == 0 {
      InitInv(run[0]);
    } else {
      RunInv(run, who, what, k - 1);
      assert Next(run[k - 1], run[k - 1 + 1], who[k - 1], what[k - 1]);
      StepInv(run[k - 1], run[k], who[k - 1], what[k - 1]);
    }
  }

  // ----- the two promises -----

  /** Main result: while a thread writes, no other thread reads or writes. */
  lemma MutualExclusion(run: seq<State>, who: seq<nat>, what: seq<Action>, k: nat, t: nat, u: nat)
    requires Run(run, who, what) && k < |run|
    requires t < |run[k].threads| && u < |run[k].threads| && t != u
    requires run[k].threads[t] == Writing
    ensures run[k].threads[u] != Writing && run[k].threads[u] != Reading
  {
    RunInv(run, who, what, k);
    CountsHere(run[k], t);
    CountsHere(run[k], u);
    if run[k].threads[u] == Writing {
      CountAtLeast(run[k].threads, t, u, WriteHolding);
    }
  }

  /** Main result: the lock is never stuck. If it is free while some thread sleeps on either
      condition variable, then some thread has been woken, and will get the lock if it runs next. */
  lemma NeverStuck(run: seq<State>, who: seq<nat>, what: seq<Action>, k: nat) returns (t: nat)
    requires Run(run, who, what) && k < |run| && Free(run[k].lock)
    requires AnyIs(run[k].threads, ReadSleep) || AnyIs(run[k].threads, WriteSleep)
    ensures t < |run[k].threads|
    ensures (run[k].threads[t] == WriteWoken && TryWrite(run[k].lock).1) ||
            (run[k].threads[t] == ReadWoken && TryRead(run[k].lock).1)
  {
    RunInv(run, who, what, k);
    var s := run[k];
    if !AnyIs(s.threads, WriteSleep) {
      t := CountWitness(s.threads, WritePending);
      assert s.threads[t] == WriteWoken;
    } else if AnyIs(s.threads, WriteWoken) {
      var u :| 0 <= u < |s.threads| && s.threads[u] == WriteWoken;
      t := u;
    } else {
      var u :| 0 <= u < |s.threads| && s.threads[u] == ReadWoken;
      t := u;
    }
  }

  // ----- who has to wait -----

  predicate AsksToRead(a: Action) { a == LockR || a == WakeR }

  predicate AsksToWrite(a: Action) { a == LockRW || a == WakeRW }

  /** More writers are waiting than half of the readers that wait together with t, and two. */
  ghost predicate WritersFirst(s: State, t: nat)
    requires t < |s.threads|
  {
    var readers := Count(s.threads, ReadPending) + if s.threads[t] == Out then 1 else 0;
    Count(s.threads, WritePending) > readers / 2 + 2
  }

  /** Before step k a reader has had to give way to writers, and no writer has finished since then. */
  ghost predicate HeldBack(run: seq<State>, who: seq<nat>, what: seq<Action>, k: nat)
    requires Run(run, who, what) && k < |run|
  {
    exists j: nat :: j < k && GaveWay(run, who, what, j) && NoneFinished(what, j + 1, k)
  }

  ghost predicate GaveWay(run: seq<State>, who: seq<nat>, what: seq<Action>, j: nat)
    requires Run(run, who, what) && j < |who|
  {
    assert Next(run[j], run[j + 1], who[j], what[j]);
    AsksToRead(what[j]) && WritersFirst(run[j], who[j])
  }

  /** No writer finishes in the steps from i up to k. */
  predicate NoneFinished(what: seq<Action>, i: nat, k: nat)
  {
    forall m :: i <= m < k && m < |what| ==> what[m] != UnlockRW
  }

  lemma AsCounted(s: State, t: nat, a: Action)
    requires Counted(s) && t < |s.threads| && AsksToRead(a)
    requires (a == LockR ==> s.threads[t] == Out) && (a == WakeR ==> s.threads[t] == ReadWoken)
    ensures WritersFirst(s, t) <==> s.lock.rwPend > SuspThresh(s.lock.rPend + if a == LockR then 1 else 0)
  {
  }

  lemma SuspStep(run: seq<State>, who: seq<nat>, what: seq<Action>, k: nat)
    requires Run(run, who, what) && k < |who|
    ensures run[k + 1].lock.rSusp <==> GaveWay(run, who, what, k) || (run[k].lock.rSusp && what[k] != UnlockRW)
  {
    RunInv(run, who, what, k);
    assert Next(run[k], run[k + 1], who[k], what[k]);
    if AsksToRead(what[k]) { AsCounted(run[k], who[k], what[k]); }
  }

  lemma HeldStep(run: seq<State>, who: seq<nat>, what: seq<Action>, k: nat)
    requires Run(run, who, what) && k < |who|
    ensures HeldBack(run, who, what, k + 1) <==>
            GaveWay(run, who, what, k) || (HeldBack(run, who, what, k) && what[k] != UnlockRW)
  {
    if HeldBack(run, who, what, k + 1) {
      var j: nat :| j < k + 1 && GaveWay(run, who, what, j) && NoneFinished(what, j + 1, k + 1);
      assert j < k ==> NoneFinished(what, j + 1, k);
    }
    if GaveWay(run, who, what, k) { assert NoneFinished(what, k + 1, k + 1); }
    if HeldBack(run, who, what, k) && what[k] != UnlockRW {
      var j: nat :| j < k && GaveWay(run, who, what, j) && NoneFinished(what, j + 1, k);
      assert NoneFinished(what, j + 1, k + 1);
    }
  }

  /** r_susp says just that. */
  lemma {:induction false} SuspMeans(run: seq<State>, who: seq<nat>, what: seq<Action>, k: nat)
    requires Run(run, who, what) && k < |run|
    ensures run[k].lock.rSusp <==> HeldBack(run, who, what, k)
  {
    if k > 0 {
      SuspMeans(run, who, what, k - 1);
      SuspStep(run, who, what, k - 1);
      HeldStep(run, who, what, k - 1);
    }
  }

  lemma SomeoneHolds(s: State)
    requires Counted(s)
    ensures s.lock.wLock <==> AnyIs(s.threads, Writing)
    ensures s.lock.rLock > 0 <==> AnyIs(s.threads, Reading)
  {
    if s.lock.wLock { var t := CountWitness(s.threads, WriteHolding); }
    if s.lock.rLock > 0 { var t := CountWitness(s.threads, ReadHolding); }
    forall t: nat | t < |s.threads| ensures s.threads[t] == Writing ==> s.lock.wLock { CountsHere(s, t); }
    forall t: nat | t < |s.threads| ensures s.threads[t] == Reading ==> s.lock.rLock > 0 { CountsHere(s, t); }
  }

  /** Main result: a thread that asks to read gets the lock exactly if no thread writes, not too many
      wait to write, and no reader has had to give way to writers since a writer last finished. */
  lemma ReadsExactly(run: seq<State>, who: seq<nat>, what: seq<Action>, k: nat)
    requires Run(run, who, what) && k < |who| && AsksToRead(what[k])
    ensures who[k] < |run[k].threads| == |run[k + 1].threads|
    ensures run[k + 1].threads[who[k]] == Reading <==>
            !AnyIs(run[k].threads, Writing) && !WritersFirst(run[k], who[k]) && !HeldBack(run, who, what, k)
    ensures run[k + 1].threads[who[k]] != Reading ==> run[k + 1].threads[who[k]] == ReadSleep
  {
    RunInv(run, who, what, k);
    assert Next(run[k], run[k + 1], who[k], what[k]);
    AsCounted(run[k], who[k], what[k]);
    SuspMeans(run, who, what, k);
    SomeoneHolds(run[k]);
  }

  /** A thread that asks to write gets the lock exactly if nobody has it. */
  lemma WritesExactly(run: seq<State>, who: seq<nat>, what: seq<Action>, k: nat)
    requires Run(run, who, what) && k < |who| && AsksToWrite(what[k])
    ensures who[k] < |run[k].threads| == |run[k + 1].threads|
    ensures run[k + 1].threads[who[k]] == Writing <==> !AnyIs(run[k].threads, Writing) && !AnyIs(run[k].threads, Reading)
    ensures run[k + 1].threads[who[k]] != Writing ==> run[k + 1].threads[who[k]] == WriteSleep
  {
    RunInv(run, who, what, k);
    assert Next(run[k], run[k + 1], who[k], what[k]);
    SomeoneHolds(run[k]);
  }

  /** Main result: once a reader has had to give way to writers, no thread starts to read until a writer
      has finished. So the writers need only wait for the threads that are reading already. */
  lemma WritersGetThrough(run: seq<State>, who: seq<nat>, what: seq<Action>, j: nat, k: nat, t: nat)
    requires Run(run, who, what) && j <= k < |who| && GaveWay(run, who, what, j) && NoneFinished(what, j + 1, k)
    requires t < |run[k].threads|
    ensures |run[k + 1].threads| == |run[k].threads|
    ensures run[k + 1].threads[t] == Reading ==> run[k].threads[t] == Reading
  {
    assert Next(run[k], run[k + 1], who[k], what[k]);
    if AsksToRead(what[k]) {
      ReadsExactly(run, who, what, k);
    }
  }

  /** A writer that finishes wakes all sleeping readers, unless none is waiting or too many writers are;
      then it wakes a writer, if any sleeps, and no reader. */
  lemma WriterWakes(run: seq<State>, who: seq<nat>, what: seq<Action>, k: nat)
    requires Run(run, who, what) && k < |who| && what[k] == UnlockRW
    ensures var ts, ts' := run[k].threads, run[k + 1].threads;
            if 0 < Count(ts, ReadPending) && Count(ts, WritePending) <= Count(ts, ReadPending) / 2 + 2
            then !AnyIs(ts', ReadSleep) && (AnyIs(ts', WriteWoken) ==> AnyIs(ts, WriteWoken))
            else (AnyIs(ts, WriteSleep) ==> AnyIs(ts', WriteWoken)) && (AnyIs(ts', ReadWoken) ==> AnyIs(ts, ReadWoken))
  {
    RunInv(run, who, what, k);
    assert Next(run[k], run[k + 1], who[k], what[k]);
    Elsewhere(run[k].threads, who[k], Out);
  }

  /** The last reader wakes a writer, if any sleeps; the others wake nobody. */
  lemma ReaderLeaves(run: seq<State>, who: seq<nat>, what: seq<Action>, k: nat)
    requires Run(run, who, what) && k < |who| && what[k] == UnlockR
    ensures who[k] < |run[k].threads|
    ensures if Count(run[k].threads, ReadHolding) == 1
            then AnyIs(run[k].threads, WriteSleep) ==> AnyIs(run[k + 1].threads, WriteWoken)
            else run[k + 1].threads == run[k].threads[who[k] := Out]
  {
    RunInv(run, who, what, k);
    assert Next(run[k], run[k + 1], who[k], what[k]);
    CountsHere(run[k], who[k]);
    Elsewhere(run[k].threads, who[k], Out);
  }
}
