/** libev's cross-thread wake-up (ev.c: evpipe_write, pipecb, ev_async_send, ev_feed_signal and
    the blocking part of ev_run), as interleaved atomic steps under sequential consistency.

    Any number of threads (or signal handlers) send; one loop blocks and is woken. All of them
    share the two flags sig_pending and async_pending, pipe_write_wanted, pipe_write_skipped and
    the wake-up descriptor. Each step below is one read or one write of that shared state. */
module Wakeup {

  /** What a sender asks for: ev_async_send (watcher w) or ev_feed_signal (signal n). */
  datatype Request = Async(w: nat) | Signal(n: nat)

  /** Where a sender stands in evpipe_write. The request's own mark (sent, pending) is set on
      the way from Idle to CheckFlag. */
  datatype SenderPc =
    | Idle
    | CheckFlag(req: Request)
    | SetFlag(req: Request)
    | SetSkipped(req: Request)
    | TestWanted(req: Request)
    | ClearSkipped(req: Request)
    | WriteFd(req: Request)

  /** Where the loop stands. `timed` says that backend_poll may block; `ready` that it reported
      the wake-up descriptor readable; `custom` that pipe_w was fed EV_CUSTOM. From ReadFd to
      AsyncClear the loop is in pipecb; the scans walk the arrays from their last element down. */
  datatype LoopPc =
    | Outside
    | SetWanted
    | TestSkipped
    | Poll(timed: bool)
    | ClearWanted(ready: bool)
    | RetestSkipped(ready: bool)
    | Invoke(ready: bool, custom: bool)
    | ReadFd
    | PipeClearSkipped
    | SigTest
    | SigClear
    | SigScan(i: nat)
    | SigFeed(i: nat)
    | AsyncTest
    | AsyncClear
    | AsyncScan(i: nat)
    | AsyncFeed(i: nat)

  /** Constants of a run: the number of async watchers and of signals, whether the descriptor is
      an eventfd (a read takes everything) or a pipe (a read takes one byte), and its capacity. */
  datatype Config = Config(asyncs: nat, signals: nat, eventfd: bool, capacity: nat)
  {
    predicate Valid() { capacity >= 1 }
  }

  /** The marks that senders leave (w->sent, signals[n].pending), and how often each watcher and
      signal has been fed. */
  datatype Marks = Marks(sent: seq<bool>, sigMarks: seq<bool>, fedAsync: seq<nat>, fedSignal: seq<nat>)

  /** The shared state and the threads. */
  datatype State = State(
    sigPending: bool,
    asyncPending: bool,
    skipped: bool,
    wanted: bool,
    fd: nat,
    marks: Marks,
    senders: seq<SenderPc>,
    loop: LoopPc)

  ghost predicate Shaped(c: Config, s: State)
  {
    match c
    case Config(asyncs, signals, _, capacity) =>
      c.Valid() && |s.marks.sent| == |s.marks.fedAsync| == asyncs && |s.marks.sigMarks| == |s.marks.fedSignal| == signals &&
      s.fd <= capacity &&
      (forall t :: 0 <= t < |s.senders| ==> GoodSender(c, s.senders[t])) &&
      (s.loop.SigScan? ==> s.loop.i <= signals) &&
      (s.loop.SigFeed? ==> s.loop.i < signals) &&
      (s.loop.AsyncScan? ==> s.loop.i <= asyncs) &&
      (s.loop.AsyncFeed? ==> s.loop.i < asyncs)
  }

  ghost predicate GoodSender(c: Config, pc: SenderPc)
  {
    !pc.Idle? ==> GoodRequest(c, pc.req)
  }

  ghost predicate GoodRequest(c: Config, r: Request)
  {
    if r.Async? then r.w < c.asyncs else r.n < c.signals
  }

  predicate Flag(s: State, r: Request) { if r.Async? then s.asyncPending else s.sigPending }

  ghost predicate Init(c: Config, s: State)
  {
    Shaped(c, s) && !s.sigPending && !s.asyncPending && !s.skipped && !s.wanted && s.fd == 0 &&
    s.loop == Outside &&
    (forall w :: 0 <= w < c.asyncs ==> !s.marks.sent[w]) && (forall n :: 0 <= n < c.signals ==> !s.marks.sigMarks[n]) &&
    (forall t :: 0 <= t < |s.senders| ==> s.senders[t].Idle?)
  }

  // ----- senders -----

  /** Thread t moves on to pc'. */
  function Move(s: State, t: nat, pc': SenderPc): State
    requires t < |s.senders|
  {
    s.(senders := s.senders[t := pc'])
  }

  function RaiseFlag(s: State, r: Request): State
  {
    if r.Async? then s.(asyncPending := true) else s.(sigPending := true)
  }

  /** A sender starts: ev_async_send sets w->sent, ev_feed_signal sets signals[n].pending. */
  ghost predicate Begin(c: Config, s: State, s': State, t: nat, r: Request)
  {
    t < |s.senders| && s.senders[t].Idle? && GoodRequest(c, r) &&
    |s.marks.sent| == c.asyncs && |s.marks.sigMarks| == c.signals &&
    s' == Move(s.(marks := if r.Async? then s.marks.(sent := s.marks.sent[r.w := true])
                           else s.marks.(sigMarks := s.marks.sigMarks[r.n := true])),
               t, CheckFlag(r))
  }

  /** One statement of evpipe_write, executed by thread t. */
  ghost predicate SenderStep(c: Config, s: State, s': State, t: nat)
  {
    t < |s.senders| &&
    match s.senders[t]
    case Idle => false
    case CheckFlag(r) => s' == Move(s, t, if Flag(s, r) then Idle else SetFlag(r))
    case SetFlag(r) => s' == Move(RaiseFlag(s, r), t, SetSkipped(r))
    case SetSkipped(r) => s' == Move(s.(skipped := true), t, TestWanted(r))
    case TestWanted(r) => s' == Move(s, t, if s.wanted then ClearSkipped(r) else Idle)
    case ClearSkipped(r) => s' == Move(s.(skipped := false), t, WriteFd(r))
    // a write to a full pipe fails, but then the pipe is readable
    case WriteFd(r) => s' == Move(s.(fd := if s.fd < c.capacity then s.fd + 1 else s.fd), t, Idle)
  }

  // ----- the loop -----

  /** Blocked: in a timed poll with nothing to read. It can still time out, or return because of
      another descriptor; nothing guarantees that it ever does. */
  predicate Blocked(s: State) { s.loop == Poll(true) && s.fd == 0 }

  predicate InPipecb(pc: LoopPc)
  {
    !(pc.Outside? || pc.SetWanted? || pc.TestSkipped? || pc.Poll? || pc.ClearWanted? || pc.RetestSkipped? || pc.Invoke?)
  }

  /** One step of ev_run. Whether the call may block at all, when poll returns, and whether it
      reports a readable descriptor (it may be interrupted) is left open. */
  ghost predicate RunStep(c: Config, s: State, s': State)
    requires !InPipecb(s.loop)
  {
    match s.loop
    case Outside => s' == s.(loop := SetWanted)
    case SetWanted => s' == s.(wanted := true, loop := TestSkipped)
    case TestSkipped =>
      s' == s.(loop := Poll(false)) || (!s.skipped && s' == s.(loop := Poll(true)))
    case Poll(_) => s' == s.(loop := ClearWanted(false)) || (s.fd > 0 && s' == s.(loop := ClearWanted(true)))
    case ClearWanted(ready) => s' == s.(wanted := false, loop := RetestSkipped(ready))
    case RetestSkipped(ready) => s' == s.(loop := Invoke(ready, s.skipped))
    case Invoke(ready, custom) =>
      s' == s.(loop := if ready then ReadFd else if custom then PipeClearSkipped else Outside)
  }

  /** Where pipecb goes next. */
  function PipeNext(c: Config, s: State): (pc: LoopPc)
    requires InPipecb(s.loop)
    requires (s.loop.SigScan? ==> s.loop.i <= |s.marks.sigMarks|) && (s.loop.AsyncScan? ==> s.loop.i <= |s.marks.sent|)
  {
    match s.loop
    case ReadFd => PipeClearSkipped
    case PipeClearSkipped => SigTest
    case SigTest => if s.sigPending then SigClear else AsyncTest
    case SigClear => SigScan(c.signals)
    case SigScan(i) => if i == 0 then AsyncTest else if s.marks.sigMarks[i - 1] then SigFeed(i - 1) else SigScan(i - 1)
    case SigFeed(i) => SigScan(i)
    case AsyncTest => if s.asyncPending then AsyncClear else Outside
    case AsyncClear => AsyncScan(c.asyncs)
    case AsyncScan(i) => if i == 0 then Outside else if s.marks.sent[i - 1] then AsyncFeed(i - 1) else AsyncScan(i - 1)
    case AsyncFeed(i) => AsyncScan(i)
  }

  /** One step of pipecb: what it changes besides its own position. */
  ghost predicate PipeStep(c: Config, s: State, s': State)
    requires Shaped(c, s) && InPipecb(s.loop)
  {
    var n := s.(loop := PipeNext(c, s));
    match s.loop
    case ReadFd => s' == n.(fd := if c.eventfd || s.fd == 0 then 0 else s.fd - 1)
    case PipeClearSkipped => s' == n.(skipped := false)
    case SigClear => s' == n.(sigPending := false)
    case SigFeed(i) => s' == n.(marks := s.marks.(sigMarks := s.marks.sigMarks[i := false],
                                                  fedSignal := s.marks.fedSignal[i := s.marks.fedSignal[i] + 1]))
    case AsyncClear => s' == n.(asyncPending := false)
    case AsyncFeed(i) => s' == n.(marks := s.marks.(sent := s.marks.sent[i := false],
                                                    fedAsync := s.marks.fedAsync[i := s.marks.fedAsync[i] + 1]))
    case _ => s' == n
  }

  ghost predicate LoopStep(c: Config, s: State, s': State)
    requires Shaped(c, s)
  {
    if InPipecb(s.loop) then PipeStep(c, s, s') else RunStep(c, s, s')
  }

  datatype Step = BeginStep(t: nat, r: Request) | SendStep(t: nat) | OwnStep

  ghost predicate Next(c: Config, s: State, s': State, step: Step)
  {
    Shaped(c, s) &&
    match step
    case BeginStep(t, r) => Begin(c, s, s', t, r)
    case SendStep(t) => SenderStep(c, s, s', t)
    case OwnStep => LoopStep(c, s, s')
  }

  ghost predicate Run(c: Config, run: seq<State>, steps: seq<Step>)
  {
    |run| == |steps| + 1 && Init(c, run[0]) &&
    forall i {:trigger NextAt(c, run, steps, i)} :: 0 <= i < |steps| ==> NextAt(c, run, steps, i)
  }

  ghost predicate NextAt(c: Config, run: seq<State>, steps: seq<Step>, i: nat)
    requires |run| == |steps| + 1 && i < |steps|
  {
    Next(c, run[i], run[i + 1], steps[i])
  }

  lemma RunNext(c: Config, run: seq<State>, steps: seq<Step>, i: nat)
    requires Run(c, run, steps) && i < |steps|
    ensures Next(c, run[i], run[i + 1], steps[i])
  {
    assert NextAt(c, run, steps, i);
  }

  // ----- the invariant -----

  ghost function Fed(c: Config, s: State, r: Request): nat
    requires Shaped(c, s) && GoodRequest(c, r)
  {
    if r.Async? then s.marks.fedAsync[r.w] else s.marks.fedSignal[r.n]
  }

  /** The request has been made and not yet been served. */
  ghost predicate Marked(c: Config, s: State, r: Request)
    requires Shaped(c, s) && GoodRequest(c, r)
  {
    if r.Async? then s.marks.sent[r.w] else s.marks.sigMarks[r.n]
  }

  /** The loop will test the flag of r before it can block again. */
  predicate WillTest(pc: LoopPc, r: Request)
  {
    match pc
    case ClearWanted(ready) => ready
    case RetestSkipped(ready) => ready
    case Invoke(ready, custom) => ready || custom
    case ReadFd | PipeClearSkipped | SigTest | SigClear => true
    case SigScan(_) | SigFeed(_) | AsyncTest | AsyncClear => r.Async?
    case _ => false
  }

  /** The loop has cleared the flag of r and has yet to look at r's mark. */
  predicate WillServe(pc: LoopPc, r: Request)
  {
    match pc
    case SigScan(i) => r.Signal? && r.n < i
    case SigFeed(i) => r.Signal? && r.n <= i
    case AsyncScan(i) => r.Async? && r.w < i
    case AsyncFeed(i) => r.Async? && r.w <= i
    case _ => false
  }

  /** A sender that has raised its flag and is not done. */
  predicate InFlight(pc: SenderPc)
  {
    pc.SetSkipped? || pc.TestWanted? || pc.ClearSkipped? || pc.WriteFd?
  }

  /** ... and is certain to set pipe_write_skipped or to write the descriptor. */
  predicate Armed(pc: SenderPc) { InFlight(pc) && !pc.TestWanted? }

  ghost predicate AnyArmed(s: State)
  {
    exists t :: 0 <= t < |s.senders| && Armed(s.senders[t])
  }

  ghost predicate AnyInFlight(s: State)
  {
    exists t :: 0 <= t < |s.senders| && InFlight(s.senders[t])
  }

  /** A sender that has made request r and has yet to see or raise the flag. */
  predicate Raising(pc: SenderPc, r: Request)
  {
    pc == CheckFlag(r) || pc == SetFlag(r)
  }

  ghost predicate AnyRaising(s: State, r: Request)
  {
    exists t :: 0 <= t < |s.senders| && Raising(s.senders[t], r)
  }

  ghost predicate WantedInv(s: State)
  {
    s.loop.TestSkipped? || s.loop.Poll? || s.loop.ClearWanted? ==> s.wanted
  }

  /** A raised flag is never forgotten. */
  ghost predicate FlagInv(s: State, r: Request)
  {
    Flag(s, r) ==> s.skipped || s.fd > 0 || AnyArmed(s) || WillTest(s.loop, r)
  }

  /** While the loop may be blocked, whoever set pipe_write_skipped is going to wake it up. */
  ghost predicate PollInv(s: State)
  {
    s.loop == Poll(true) && s.skipped ==> s.fd > 0 || AnyInFlight(s)
  }

  /** A mark is never forgotten. */
  ghost predicate MarkInv(c: Config, s: State, r: Request)
    requires Shaped(c, s) && GoodRequest(c, r)
  {
    Marked(c, s, r) ==> Flag(s, r) || AnyRaising(s, r) || WillServe(s.loop, r)
  }

  ghost predicate Inv(c: Config, s: State)
  {
    Shaped(c, s) && WantedInv(s) && PollInv(s) &&
    FlagInv(s, Async(0)) && FlagInv(s, Signal(0)) &&
    forall r :: GoodRequest(c, r) ==> MarkInv(c, s, r)
  }

  lemma InitInv(c: Config, s: State)
    requires Init(c, s)
    ensures Inv(c, s)
  {
  }

  lemma RunShaped(c: Config, s: State, s': State)
    requires Shaped(c, s) && !InPipecb(s.loop) && RunStep(c, s, s')
    ensures Shaped(c, s') && s'.senders == s.senders && s'.fd == s.fd && s'.skipped == s.skipped
    ensures s'.sigPending == s.sigPending && s'.asyncPending == s.asyncPending
    ensures s'.marks == s.marks
  {
  }

  lemma PipeShaped(c: Config, s: State, s': State)
    requires Shaped(c, s) && InPipecb(s.loop) && PipeStep(c, s, s')
    ensures Shaped(c, s') && s'.senders == s.senders
  {
  }

  lemma LoopShaped(c: Config, s: State, s': State)
    requires Shaped(c, s) && LoopStep(c, s, s')
    ensures Shaped(c, s') && s'.senders == s.senders
  {
    if InPipecb(s.loop) { PipeShaped(c, s, s'); } else { RunShaped(c, s, s'); }
  }

  lemma SendFrame(c: Config, s: State, s': State, t: nat)
    requires s.fd <= c.capacity && SenderStep(c, s, s', t)
    ensures s'.loop == s.loop && s.fd <= s'.fd <= c.capacity && s'.wanted == s.wanted
    ensures s'.marks == s.marks
  {
  }

  lemma SendMoves(c: Config, s: State, s': State, t: nat)
    requires SenderStep(c, s, s', t)
    ensures |s'.senders| == |s.senders| && s'.senders == s.senders[t := s'.senders[t]] && !s.senders[t].Idle?
    ensures !s'.senders[t].Idle? ==> s'.senders[t].req == s.senders[t].req
  {
  }

  lemma SendShaped(c: Config, s: State, s': State, t: nat)
    requires Shaped(c, s) && SenderStep(c, s, s', t)
    ensures Shaped(c, s')
  {
    SendFrame(c, s, s', t);
    SendMoves(c, s, s', t);
    assert GoodSender(c, s.senders[t]);
    forall u | 0 <= u < |s'.senders| ensures GoodSender(c, s'.senders[u]) {
      if u != t { assert s'.senders[u] == s.senders[u]; }
    }
  }

  lemma BeginShaped(c: Config, s: State, s': State, t: nat, r: Request)
    requires Shaped(c, s) && Begin(c, s, s', t, r)
    ensures Shaped(c, s') && |s'.senders| == |s.senders|
    ensures s'.senders == s.senders[t := CheckFlag(r)]
  {
  }

  /** A sender's move keeps every other thread where it was. */
  lemma Others(s: State, s': State, t: nat, pc': SenderPc)
    requires t < |s.senders| && s'.senders == s.senders[t := pc']
    ensures Armed(pc') || (AnyArmed(s) && !Armed(s.senders[t])) ==> AnyArmed(s')
    ensures InFlight(pc') || (AnyInFlight(s) && !InFlight(s.senders[t])) ==> AnyInFlight(s')
    ensures forall r :: Raising(pc', r) || (AnyRaising(s, r) && !Raising(s.senders[t], r)) ==> AnyRaising(s', r)
  {
    assert s'.senders[t] == pc';
    assert forall u :: 0 <= u < |s.senders| && u != t ==> s'.senders[u] == s.senders[u];
  }

  lemma SendKeepsFlag(c: Config, s: State, s': State, t: nat, r: Request)
    requires Inv(c, s) && SenderStep(c, s, s', t) && FlagInv(s, r)
    ensures FlagInv(s', r) && PollInv(s')
  {
    SendFrame(c, s, s', t);
    SendMoves(c, s, s', t);
    Others(s, s', t, s'.senders[t]);
  }

  lemma SendKeepsMark(c: Config, s: State, s': State, t: nat, r: Request)
    requires Shaped(c, s) && SenderStep(c, s, s', t) && GoodRequest(c, r) && MarkInv(c, s, r)
    ensures Shaped(c, s') && MarkInv(c, s', r)
  {
    SendShaped(c, s, s', t);
    SendFrame(c, s, s', t);
    SendMoves(c, s, s', t);
    Others(s, s', t, s'.senders[t]);
  }

  lemma SendKeepsInv(c: Config, s: State, s': State, t: nat)
    requires Inv(c, s) && SenderStep(c, s, s', t)
    ensures Inv(c, s')
  {
    SendShaped(c, s, s', t);
    SendFrame(c, s, s', t);
    SendKeepsFlag(c, s, s', t, Async(0));
    SendKeepsFlag(c, s, s', t, Signal(0));
    forall r | GoodRequest(c, r) ensures MarkInv(c, s', r) {
      SendKeepsMark(c, s, s', t, r);
    }
  }

  lemma BeginKeepsInv(c: Config, s: State, s': State, t: nat, r0: Request)
    requires Inv(c, s) && Begin(c, s, s', t, r0)
    ensures Inv(c, s')
  {
    BeginShaped(c, s, s', t, r0);
    Others(s, s', t, CheckFlag(r0));
    forall r | GoodRequest(c, r) ensures MarkInv(c, s', r) {
      assert MarkInv(c, s, r);
    }
  }

  lemma LoopKeepsFlag(c: Config, s: State, s': State, r: Request)
    requires Inv(c, s) && LoopStep(c, s, s') && FlagInv(s, r)
    ensures FlagInv(s', r)
  {
    LoopShaped(c, s, s');
  }

  lemma PipeKeepsMark(c: Config, s: State, s': State, r: Request)
    requires Shaped(c, s) && InPipecb(s.loop) && PipeStep(c, s, s') && GoodRequest(c, r) && MarkInv(c, s, r)
    ensures Shaped(c, s') && MarkInv(c, s', r)
  {
    PipeShaped(c, s, s');
  }

  lemma LoopKeepsMark(c: Config, s: State, s': State, r: Request)
    requires Shaped(c, s) && LoopStep(c, s, s') && GoodRequest(c, r) && MarkInv(c, s, r)
    ensures Shaped(c, s') && MarkInv(c, s', r)
  {
    if InPipecb(s.loop) { PipeKeepsMark(c, s, s', r); } else { RunShaped(c, s, s'); }
  }

  lemma LoopKeepsPoll(c: Config, s: State, s': State)
    requires Shaped(c, s) && WantedInv(s) && PollInv(s) && LoopStep(c, s, s')
    ensures WantedInv(s') && PollInv(s')
  {
    LoopShaped(c, s, s');
    if !InPipecb(s.loop) { RunShaped(c, s, s'); }
  }

  lemma LoopKeepsInv(c: Config, s: State, s': State)
    requires Inv(c, s) && LoopStep(c, s, s')
    ensures Inv(c, s')
  {
    LoopShaped(c, s, s');
    LoopKeepsPoll(c, s, s');
    LoopKeepsFlag(c, s, s', Async(0));
    LoopKeepsFlag(c, s, s', Signal(0));
    forall r | GoodRequest(c, r) ensures MarkInv(c, s', r) {
      LoopKeepsMark(c, s, s', r);
    }
  }

  /** Every reachable state satisfies the invariant. */
  lemma {:induction false} RunInv(c: Config, run: seq<State>, steps: seq<Step>, k: nat)
    requires Run(c, run, steps) && k < |run|
    ensures Inv(c, run[k])
  {
    if k == 0 {
      InitInv(c, run[0]);
    } else {
      RunInv(c, run, steps, k - 1);
      RunNext(c, run, steps, k - 1);
      match steps[k - 1]
      case BeginStep(t, r) => BeginKeepsInv(c, run[k - 1], run[k], t, r);
      case SendStep(t) => SendKeepsInv(c, run[k - 1], run[k], t);
      case OwnStep => LoopKeepsInv(c, run[k - 1], run[k]);
    }
  }

  // ----- no lost wake-up -----

  ghost predicate Quiet(s: State)
  {
    forall t :: 0 <= t < |s.senders| ==> s.senders[t].Idle?
  }

  /** Main result: in no reachable state is the loop blocked, with nothing to read and no sender
      on its way, while a signal or an async event is pending. */
  lemma NoLostWakeup(c: Config, run: seq<State>, steps: seq<Step>, k: nat)
    requires Run(c, run, steps) && k < |run|
    requires Blocked(run[k]) && Quiet(run[k])
    ensures !run[k].sigPending && !run[k].asyncPending
    ensures Shaped(c, run[k]) && forall r :: GoodRequest(c, r) ==> !Marked(c, run[k], r)
  {
    RunInv(c, run, steps, k);
    forall r | GoodRequest(c, r) ensures !Marked(c, run[k], r) {
      assert MarkInv(c, run[k], r);
    }
  }

  /** With senders about, too: if a flag is up while the loop is blocked, then a sender is between
      raising its flag and writing the descriptor ... */
  lemma WakeupInFlight(c: Config, s: State, r: Request)
    requires Inv(c, s) && Blocked(s) && Flag(s, r)
    ensures AnyInFlight(s)
  {
    assert FlagInv(s, if r.Async? then Async(0) else Signal(0));
    if AnyArmed(s) {
      var t :| 0 <= t < |s.senders| && Armed(s.senders[t]);
      assert InFlight(s.senders[t]);
    }
  }

  function StepsLeft(pc: SenderPc): nat
  {
    match pc
    case SetSkipped(_) => 4
    case TestWanted(_) => 3
    case ClearSkipped(_) => 2
    case WriteFd(_) => 1
    case _ => 0
  }

  /** ... and such a sender, on its own, makes the descriptor readable in at most four steps. */
  lemma InFlightWakes(c: Config, s: State, s': State, t: nat)
    requires Inv(c, s) && Blocked(s) && t < |s.senders| && InFlight(s.senders[t])
    requires SenderStep(c, s, s', t)
    ensures s'.loop == s.loop
    ensures s'.fd > 0 || (InFlight(s'.senders[t]) && StepsLeft(s'.senders[t]) < StepsLeft(s.senders[t]))
  {
  }

  // ----- every request is served -----

  lemma PipeServes(c: Config, s: State, s': State, r: Request)
    requires Shaped(c, s) && InPipecb(s.loop) && PipeStep(c, s, s') && GoodRequest(c, r)
    ensures Shaped(c, s')
    ensures Marked(c, s, r) && !Marked(c, s', r) ==> Fed(c, s', r) == Fed(c, s, r) + 1
    ensures Fed(c, s', r) >= Fed(c, s, r)
  {
    PipeShaped(c, s, s');
  }

  lemma LoopServes(c: Config, s: State, s': State, r: Request)
    requires Shaped(c, s) && LoopStep(c, s, s') && GoodRequest(c, r)
    ensures Shaped(c, s')
    ensures Marked(c, s, r) && !Marked(c, s', r) ==> Fed(c, s', r) == Fed(c, s, r) + 1
    ensures Fed(c, s', r) >= Fed(c, s, r)
  {
    if InPipecb(s.loop) { PipeServes(c, s, s', r); } else { RunShaped(c, s, s'); }
  }

  /** A mark goes away only when the request is served. */
  lemma OnlyServedMarksClear(c: Config, s: State, s': State, step: Step, r: Request)
    requires Next(c, s, s', step) && GoodRequest(c, r)
    ensures Shaped(c, s')
    ensures Fed(c, s', r) >= Fed(c, s, r)
    ensures Marked(c, s, r) && !Marked(c, s', r) ==> Fed(c, s', r) == Fed(c, s, r) + 1
  {
    match step
    case BeginStep(t, r0) => BeginShaped(c, s, s', t, r0);
    case SendStep(t) => SendShaped(c, s, s', t); SendFrame(c, s, s', t);
    case OwnStep => LoopServes(c, s, s', r);
  }

  /** Whatever the threads do: once a request has been made, it stays marked until the loop has
      served it, in a pass that began after the request was made. */
  lemma {:induction false} ServedOrMarked(c: Config, run: seq<State>, steps: seq<Step>, i: nat, j: nat, r: Request)
    requires Run(c, run, steps) && i <= j < |run| && GoodRequest(c, r)
    requires Shaped(c, run[i]) && Marked(c, run[i], r)
    ensures Shaped(c, run[j]) && Fed(c, run[j], r) >= Fed(c, run[i], r)
    ensures Marked(c, run[j], r) || Fed(c, run[j], r) > Fed(c, run[i], r)
    decreases j - i
  {
    if i < j {
      ServedOrMarked(c, run, steps, i, j - 1, r);
      RunNext(c, run, steps, j - 1);
      OnlyServedMarksClear(c, run[j - 1], run[j], steps[j - 1], r);
    }
  }

  /** Steps from the start of a scan that begins below index i to the end of its visit to w. */
  function ScanLeft(i: nat, w: nat): int { 2 * (i - w) }

  /** Steps until the loop tests the flag of r in a pass through pipecb that starts at SigTest. */
  function TestLeft(c: Config, r: Request): nat
  {
    if r.Async? then 2 * c.signals + 5 + 2 * c.asyncs else 2 + 2 * c.signals
  }

  /** Steps of the loop from one test of the flag of r to the next, at most. */
  function Round(c: Config, r: Request): nat { TestLeft(c, r) + 10 }

  /** An upper bound on the number of steps until r is served, from inside pipecb. */
  function PipeDistance(c: Config, pc: LoopPc, r: Request): int
    requires InPipecb(pc)
  {
    match pc
    case SigScan(i) =>
      if r.Async? then 2 * i + 3 + 2 * c.asyncs
      else if r.n < i then ScanLeft(i, r.n) else 2 * i + 2 * c.asyncs + 4 + Round(c, r)
    case SigFeed(i) =>
      if r.Async? then 2 * i + 4 + 2 * c.asyncs
      else if r.n <= i then 1 + ScanLeft(i, r.n) else 2 * i + 2 * c.asyncs + 5 + Round(c, r)
    case AsyncTest => if r.Async? then 2 + 2 * c.asyncs else 2 * c.asyncs + 3 + Round(c, r)
    case AsyncClear => if r.Async? then 1 + 2 * c.asyncs else 2 * c.asyncs + 2 + Round(c, r)
    case AsyncScan(i) => if r.Async? && r.w < i then ScanLeft(i, r.w) else 2 * i + 1 + Round(c, r)
    case AsyncFeed(i) => if r.Async? && r.w <= i then 1 + ScanLeft(i, r.w) else 2 * i + 2 + Round(c, r)
    case SigTest => TestLeft(c, r)
    case SigClear => TestLeft(c, r) - 1
    case PipeClearSkipped => TestLeft(c, r) + 1
    case ReadFd => TestLeft(c, r) + 2
  }

  /** ... and from anywhere, once the descriptor is readable. */
  function Distance(c: Config, pc: LoopPc, r: Request): int
  {
    if InPipecb(pc) then PipeDistance(c, pc, r)
    else
      match pc
      case Invoke(ready, custom) => if ready || custom then TestLeft(c, r) + 3 else Round(c, r) + 1
      case RetestSkipped(ready) => if ready then TestLeft(c, r) + 4 else Round(c, r) + 2
      case ClearWanted(ready) => if ready then TestLeft(c, r) + 5 else Round(c, r) + 3
      case Poll(_) => TestLeft(c, r) + 6
      case TestSkipped => TestLeft(c, r) + 7
      case SetWanted => TestLeft(c, r) + 8
      case Outside => TestLeft(c, r) + 9
  }

  /** More than any distance. */
  function Enough(c: Config, r: Request): nat { 2 * c.signals + 2 * c.asyncs + 12 + Round(c, r) }

  // ----- how far a request has come -----

  /** Its flag has been raised, or the loop is about to serve it. */
  predicate Raised(s: State, r: Request) { Flag(s, r) || WillServe(s.loop, r) }

  /** The loop, on its own, is going to serve it. */
  predicate Near(s: State, r: Request)
  {
    WillServe(s.loop, r) || (Flag(s, r) && (s.fd > 0 || WillTest(s.loop, r)))
  }

  /** A sender is about to write the descriptor. */
  predicate Writing(pc: SenderPc) { pc.ClearSkipped? || pc.WriteFd? }

  ghost predicate AnyWriting(s: State)
  {
    exists t :: 0 <= t < |s.senders| && Writing(s.senders[t])
  }

  ghost predicate Written(s: State, r: Request) { Near(s, r) || (Flag(s, r) && AnyWriting(s)) }

  ghost predicate Skips(s: State, r: Request) { Written(s, r) || (Flag(s, r) && s.skipped) }

  /** Four stages on the way of a request that has been made. */
  ghost predicate Stage(s: State, r: Request, k: nat)
  {
    match k
    case 0 => true
    case 1 => Raised(s, r)
    case 2 => Skips(s, r)
    case 3 => Written(s, r)
    case _ => Near(s, r)
  }

  // ----- no step of any thread takes it back -----

  lemma BeginKeepsStage(c: Config, s: State, s': State, t: nat, r0: Request, r: Request, k: nat)
    requires Shaped(c, s) && Begin(c, s, s', t, r0) && Stage(s, r, k)
    ensures Stage(s', r, k)
  {
    BeginShaped(c, s, s', t, r0);
    if AnyWriting(s) {
      var u :| 0 <= u < |s.senders| && Writing(s.senders[u]);
      assert Writing(s'.senders[u]);
    }
  }

  /** A sender that clears pipe_write_skipped is going to write the descriptor. */
  lemma SendKeepsStage(c: Config, s: State, s': State, t: nat, r: Request, k: nat)
    requires Shaped(c, s) && SenderStep(c, s, s', t) && Stage(s, r, k)
    ensures Stage(s', r, k)
  {
    SendFrame(c, s, s', t);
    SendMoves(c, s, s', t);
    SendFlag(c, s, s', t, r);
    if AnyWriting(s) {
      var u :| 0 <= u < |s.senders| && Writing(s.senders[u]);
      assert u != t ==> s'.senders[u] == s.senders[u];
    }
    assert s'.skipped == s.skipped || s'.skipped || Writing(s'.senders[t]);
  }

  lemma SendFlag(c: Config, s: State, s': State, t: nat, r: Request)
    requires SenderStep(c, s, s', t) && c.Valid() && s.fd <= c.capacity
    ensures Flag(s, r) ==> Flag(s', r)
    ensures Writing(s.senders[t]) ==> Writing(s'.senders[t]) || s'.fd > 0
    ensures s.skipped && !s'.skipped ==> Writing(s'.senders[t])
    ensures s.senders[t].SetSkipped? ==> s'.skipped
    ensures s.senders[t].SetFlag? && s.senders[t].req == r ==> Flag(s', r)
    ensures s.senders[t].TestWanted? && s.wanted ==> Writing(s'.senders[t])
  {
  }

  /** What the loop does brings the request nearer to being served, or serves it. */
  lemma RunKeepsStage(c: Config, s: State, s': State, r: Request, k: nat)
    requires Shaped(c, s) && !InPipecb(s.loop) && RunStep(c, s, s') && GoodRequest(c, r) && Stage(s, r, k)
    ensures Stage(s', r, k)
  {
    RunShaped(c, s, s');
    assert AnyWriting(s) ==> AnyWriting(s');
  }

  lemma PipeKeepsRaised(c: Config, s: State, s': State, r: Request)
    requires Shaped(c, s) && InPipecb(s.loop) && PipeStep(c, s, s') && GoodRequest(c, r) && Marked(c, s, r)
    ensures Shaped(c, s') && (Fed(c, s', r) > Fed(c, s, r) || Marked(c, s', r))
    ensures Fed(c, s', r) > Fed(c, s, r) || (Flag(s, r) ==> Flag(s', r) || WillServe(s'.loop, r))
    ensures Fed(c, s', r) > Fed(c, s, r) || (WillServe(s.loop, r) ==> WillServe(s'.loop, r))
  {
    PipeShaped(c, s, s');
  }

  lemma PipeKeepsNear(c: Config, s: State, s': State, r: Request)
    requires Shaped(c, s) && InPipecb(s.loop) && PipeStep(c, s, s') && GoodRequest(c, r) && Flag(s, r)
    ensures s'.senders == s.senders
    ensures s.fd > 0 || WillTest(s.loop, r) ==> s'.fd > 0 || WillTest(s'.loop, r) || WillServe(s'.loop, r)
    ensures s.skipped ==> s'.skipped || WillTest(s'.loop, r)
  {
    PipeShaped(c, s, s');
  }

  lemma PipeKeepsStage(c: Config, s: State, s': State, r: Request, k: nat)
    requires Shaped(c, s) && InPipecb(s.loop) && PipeStep(c, s, s') && GoodRequest(c, r) && Marked(c, s, r) && Stage(s, r, k)
    ensures Shaped(c, s') && (Fed(c, s', r) > Fed(c, s, r) || (Marked(c, s', r) && Stage(s', r, k)))
  {
    PipeKeepsRaised(c, s, s', r);
    if Flag(s, r) { PipeKeepsNear(c, s, s', r); }
    assert AnyWriting(s) && s'.senders == s.senders ==> AnyWriting(s');
  }

  /** Main step: whatever a thread does, a request that has been made keeps the stage it has come to
      until it is served. */
  lemma StageKept(c: Config, s: State, s': State, step: Step, r: Request, k: nat)
    requires Next(c, s, s', step) && GoodRequest(c, r) && Marked(c, s, r) && Stage(s, r, k)
    ensures Shaped(c, s') && (Fed(c, s', r) > Fed(c, s, r) || (Marked(c, s', r) && Stage(s', r, k)))
  {
    OnlyServedMarksClear(c, s, s', step, r);
    match step
    case BeginStep(t, r0) => BeginKeepsStage(c, s, s', t, r0, r, k);
    case SendStep(t) => SendKeepsStage(c, s, s', t, r, k);
    case OwnStep =>
      if InPipecb(s.loop) { PipeKeepsStage(c, s, s', r, k); } else { RunKeepsStage(c, s, s', r, k); }
  }

  /** It has been served since s0, or it is still marked and at stage k. */
  ghost predicate At(c: Config, s0: State, s: State, r: Request, k: nat)
    requires Shaped(c, s0) && GoodRequest(c, r)
  {
    Shaped(c, s) && |s.senders| == |s0.senders| && Fed(c, s, r) >= Fed(c, s0, r) &&
    (Fed(c, s, r) > Fed(c, s0, r) || (Marked(c, s, r) && Stage(s, r, k)))
  }

  lemma NextSenders(c: Config, s: State, s': State, step: Step)
    requires Next(c, s, s', step)
    ensures |s'.senders| == |s.senders|
  {
    match step
    case BeginStep(t, r) => BeginShaped(c, s, s', t, r);
    case SendStep(t) => SendMoves(c, s, s', t);
    case OwnStep => LoopShaped(c, s, s');
  }

  lemma AtKept(c: Config, s0: State, s: State, s': State, step: Step, r: Request, k: nat)
    requires Shaped(c, s0) && GoodRequest(c, r) && At(c, s0, s, r, k) && Next(c, s, s', step)
    ensures At(c, s0, s', r, k)
  {
    OnlyServedMarksClear(c, s, s', step, r);
    NextSenders(c, s, s', step);
    if Fed(c, s, r) == Fed(c, s0, r) { StageKept(c, s, s', step, r, k); }
  }

  lemma {:induction false} FedGrows(c: Config, run: seq<State>, steps: seq<Step>, i: nat, j: nat, r: Request)
    requires Run(c, run, steps) && i <= j < |run| && GoodRequest(c, r) && Shaped(c, run[i])
    ensures Shaped(c, run[j]) && Fed(c, run[j], r) >= Fed(c, run[i], r)
    decreases j - i
  {
    if i < j {
      FedGrows(c, run, steps, i, j - 1, r);
      RunNext(c, run, steps, j - 1);
      OnlyServedMarksClear(c, run[j - 1], run[j], steps[j - 1], r);
    }
  }

  lemma {:induction false} AtKeptLong(c: Config, run: seq<State>, steps: seq<Step>, s0: State, i: nat, j: nat, r: Request, k: nat)
    requires Run(c, run, steps) && i <= j < |run| && GoodRequest(c, r) && Shaped(c, s0) && At(c, s0, run[i], r, k)
    ensures At(c, s0, run[j], r, k)
    decreases j - i
  {
    if i < j {
      AtKeptLong(c, run, steps, s0, i, j - 1, r, k);
      RunNext(c, run, steps, j - 1);
      AtKept(c, s0, run[j - 1], run[j], steps[j - 1], r, k);
    }
  }

  // ----- rounds -----

  /** How many of the steps are the loop's. */
  function Own(steps: seq<Step>, i: nat, j: nat): nat
    requires i <= j <= |steps|
    decreases j - i
  {
    if i == j then 0 else Own(steps, i, j - 1) + if steps[j - 1].OwnStep? then 1 else 0
  }

  lemma {:induction false} OwnGrows(steps: seq<Step>, i: nat, j: nat, k: nat)
    requires i <= j <= k <= |steps|
    ensures Own(steps, i, j) <= Own(steps, i, k)
    decreases k - j
  {
    if j < k { OwnGrows(steps, i, j, k - 1); }
  }

  /** Whenever poll returns, it reports the descriptor if it is readable. */
  ghost predicate Honest(run: seq<State>, steps: seq<Step>)
    requires |run| == |steps| + 1
  {
    forall i {:trigger HonestAt(run, steps, i)} :: 0 <= i < |steps| ==> HonestAt(run, steps, i)
  }

  ghost predicate HonestAt(run: seq<State>, steps: seq<Step>, i: nat)
    requires |run| == |steps| + 1 && i < |steps|
  {
    steps[i].OwnStep? && run[i].loop.Poll? ==> run[i + 1].loop == ClearWanted(run[i].fd > 0)
  }

  ghost predicate Finishes(run: seq<State>, t: nat, i: nat, j: nat)
  {
    exists m :: i <= m <= j && m < |run| && t < |run[m].senders| && run[m].senders[t].Idle?
  }

  /** A round: the loop takes a number of steps, unless it is blocked in the end, and every sender
      that has begun finishes what it has begun. Others may begin and go on as they like. */
  ghost predicate RoundOf(c: Config, run: seq<State>, steps: seq<Step>, r: Request, i: nat, j: nat)
    requires |run| == |steps| + 1
  {
    i <= j < |run| && (Own(steps, i, j) >= Enough(c, r) || Blocked(run[j])) &&
    forall t :: 0 <= t < |run[i].senders| ==> Finishes(run, t, i, j)
  }

  /** Where sender t is bound to reach stage k next. */
  predicate Bound(pc: SenderPc, r: Request, k: nat)
  {
    match k
    case 1 => Raising(pc, r)
    case 2 => pc.SetSkipped?
    case 4 => Writing(pc)
    case _ => false
  }

  lemma BoundArrives(c: Config, s: State, s': State, step: Step, r: Request, k: nat, t: nat)
    requires Next(c, s, s', step) && GoodRequest(c, r) && t < |s.senders| && Bound(s.senders[t], r, k)
    requires Marked(c, s, r) && (k > 1 ==> Raised(s, r))
    ensures Shaped(c, s') && |s'.senders| == |s.senders|
    ensures Fed(c, s', r) > Fed(c, s, r) || (Marked(c, s', r) && (Stage(s', r, k) || Bound(s'.senders[t], r, k)))
  {
    StageKept(c, s, s', step, r, if k > 1 then 1 else 0);
    match step
    case BeginStep(t0, r0) => BeginShaped(c, s, s', t0, r0);
    case OwnStep => LoopShaped(c, s, s');
    case SendStep(t0) =>
      SendMoves(c, s, s', t0);
      SendFlag(c, s, s', t0, r);
      SendFrame(c, s, s', t0);
  }

  /** ... so it has reached it, or the sender has not finished. */
  lemma {:induction false} BoundUntil(c: Config, run: seq<State>, steps: seq<Step>, i: nat, j: nat, r: Request, k: nat, t: nat)
    requires Run(c, run, steps) && i <= j < |run| && GoodRequest(c, r) && Shaped(c, run[i])
    requires At(c, run[i], run[i], r, if k > 1 then 1 else 0) && t < |run[i].senders| && Bound(run[i].senders[t], r, k)
    ensures At(c, run[i], run[j], r, if k > 1 then 1 else 0)
    ensures At(c, run[i], run[j], r, k) || Bound(run[j].senders[t], r, k)
    decreases j - i
  {
    if i < j {
      BoundUntil(c, run, steps, i, j - 1, r, k, t);
      RunNext(c, run, steps, j - 1);
      AtKept(c, run[i], run[j - 1], run[j], steps[j - 1], r, if k > 1 then 1 else 0);
      if At(c, run[i], run[j - 1], r, k) {
        AtKept(c, run[i], run[j - 1], run[j], steps[j - 1], r, k);
      } else {
        BoundArrives(c, run[j - 1], run[j], steps[j - 1], r, k, t);
      }
    }
  }

  /** A sender that is bound to reach the next stage, if it has not been reached. */
  lemma SomeBound(c: Config, s: State, r: Request, k: nat) returns (t: nat)
    requires Inv(c, s) && GoodRequest(c, r) && Marked(c, s, r) && (k == 1 || k == 2 || k == 4)
    requires Stage(s, r, k - 1) && !Stage(s, r, k)
    ensures t < |s.senders| && Bound(s.senders[t], r, k) && (k > 1 ==> Raised(s, r))
  {
    assert MarkInv(c, s, r);
    assert FlagInv(s, if r.Async? then Async(0) else Signal(0));
    if k == 1 {
      t :| 0 <= t < |s.senders| && Raising(s.senders[t], r);
    } else if k == 2 {
      t :| 0 <= t < |s.senders| && Armed(s.senders[t]);
      assert !Writing(s.senders[t]);
    } else {
      t :| 0 <= t < |s.senders| && Writing(s.senders[t]);
    }
  }

  /** A round takes a request from having been made to being raised, from there to where
      pipe_write_skipped, the descriptor or the loop knows of it, and from a sender that is about to
      write the descriptor to where it has been written. */
  lemma RoundAdvances(c: Config, run: seq<State>, steps: seq<Step>, i: nat, j: nat, r: Request, k: nat)
    requires Run(c, run, steps) && RoundOf(c, run, steps, r, i, j) && GoodRequest(c, r) && (k == 1 || k == 2 || k == 4)
    requires Inv(c, run[i]) && Marked(c, run[i], r) && Stage(run[i], r, k - 1)
    ensures At(c, run[i], run[j], r, k)
  {
    if Stage(run[i], r, k) {
      AtKeptLong(c, run, steps, run[i], i, j, r, k);
    } else {
      var t := SomeBound(c, run[i], r, k);
      assert Finishes(run, t, i, j);
      var m: nat :| i <= m <= j && m < |run| && t < |run[m].senders| && run[m].senders[t].Idle?;
      BoundUntil(c, run, steps, i, m, r, k, t);
      AtKeptLong(c, run, steps, run[i], m, j, r, k);
    }
  }

  // ----- pipe_write_skipped is seen, or a sender writes the descriptor -----

  /** At most so many steps of the loop until it tests pipe_write_skipped in its favour. */
  function ToRetest(c: Config, pc: LoopPc): nat
  {
    match pc
    case RetestSkipped(_) => 1
    case ClearWanted(_) => 2
    case Poll(_) => 3
    case TestSkipped => 4
    case SetWanted => 5
    case Outside => 6
    case Invoke(_, _) => 7
    case AsyncScan(i) => 2 * i + 7
    case AsyncFeed(i) => 2 * i + 8
    case AsyncClear => 2 * c.asyncs + 8
    case AsyncTest => 2 * c.asyncs + 9
    case SigScan(i) => 2 * i + 2 * c.asyncs + 10
    case SigFeed(i) => 2 * i + 2 * c.asyncs + 11
    case _ => 0
  }

  /** pipe_write_skipped is set for the loop to see. */
  predicate Awaits(s: State, r: Request) { Flag(s, r) && s.skipped }

  /** A sender that is going to see that the loop wants to be woken. */
  predicate Testing(pc: SenderPc) { pc.SetSkipped? || pc.TestWanted? }

  lemma AwaitsOwn(c: Config, s: State, s': State, r: Request)
    requires Shaped(c, s) && LoopStep(c, s, s') && GoodRequest(c, r) && Marked(c, s, r)
    requires Awaits(s, r) && !Written(s, r) && At(c, s, s', r, 2)
    ensures At(c, s, s', r, 3) || (Awaits(s', r) && ToRetest(c, s'.loop) < ToRetest(c, s.loop) && s'.loop != Poll(true))
  {
    if InPipecb(s.loop) { PipeShaped(c, s, s'); } else { RunShaped(c, s, s'); }
  }

  lemma AwaitsOther(c: Config, s: State, s': State, step: Step, r: Request, t: nat)
    requires Inv(c, s) && Next(c, s, s', step) && !step.OwnStep? && GoodRequest(c, r) && Marked(c, s, r)
    requires Awaits(s, r) && At(c, s, s', r, 2)
    requires s.loop == Poll(true) ==> t < |s.senders| && Testing(s.senders[t])
    ensures s'.loop == s.loop && (At(c, s, s', r, 3) || Awaits(s', r))
    ensures s.loop == Poll(true) ==> At(c, s, s', r, 3) || Testing(s'.senders[t])
  {
    match step
    case BeginStep(t0, r0) => BeginShaped(c, s, s', t0, r0);
    case SendStep(t0) =>
      SendFrame(c, s, s', t0);
      SendMoves(c, s, s', t0);
      SendFlag(c, s, s', t0, r);
  }

  /** The loop has come so far since state i, with m steps. */
  ghost predicate Waits(c: Config, s0: State, s: State, r: Request, t: nat, m: nat)
  {
    match s
    case State(_, _, _, _, _, _, senders, loop) =>
      Awaits(s, r) && ToRetest(c, loop) + m <= ToRetest(c, s0.loop) &&
      if m == 0 then loop == s0.loop && (loop == Poll(true) ==> t < |senders| && Testing(senders[t]))
      else loop != Poll(true)
  }

  lemma WaitsStep(c: Config, s0: State, s: State, s': State, step: Step, r: Request, t: nat, m: nat, m': nat)
    requires Shaped(c, s0) && GoodRequest(c, r) && Inv(c, s) && Next(c, s, s', step)
    requires m' == m + if step.OwnStep? then 1 else 0
    requires At(c, s0, s, r, 2) && !At(c, s0, s, r, 3) && Waits(c, s0, s, r, t, m)
    ensures At(c, s0, s', r, 2)
    ensures At(c, s0, s', r, 3) || Waits(c, s0, s', r, t, m')
  {
    AtKept(c, s0, s, s', step, r, 2);
    StageKept(c, s, s', step, r, 2);
    OnlyServedMarksClear(c, s, s', step, r);
    NextSenders(c, s, s', step);
    if step.OwnStep? { AwaitsOwn(c, s, s', r); } else { AwaitsOther(c, s, s', step, r, t); }
  }

  lemma {:induction false} WaitsUntil(c: Config, run: seq<State>, steps: seq<Step>, i: nat, j: nat, r: Request, t: nat)
    requires Run(c, run, steps) && i <= j < |run| && GoodRequest(c, r) && Shaped(c, run[i])
    requires At(c, run[i], run[i], r, 2) && Waits(c, run[i], run[i], r, t, 0)
    ensures At(c, run[i], run[j], r, 2)
    ensures At(c, run[i], run[j], r, 3) || Waits(c, run[i], run[j], r, t, Own(steps, i, j))
    decreases j - i
  {
    if i < j {
      WaitsUntil(c, run, steps, i, j - 1, r, t);
      RunNext(c, run, steps, j - 1);
      if At(c, run[i], run[j - 1], r, 3) {
        AtKept(c, run[i], run[j - 1], run[j], steps[j - 1], r, 3);
        AtKept(c, run[i], run[j - 1], run[j], steps[j - 1], r, 2);
      } else {
        RunInv(c, run, steps, j - 1);
        WaitsStep(c, run[i], run[j - 1], run[j], steps[j - 1], r, t, Own(steps, i, j - 1), Own(steps, i, j));
      }
    }
  }

  /** A round from where pipe_write_skipped is set: the loop sees that, or, if it is blocked already,
      a sender sees that it is to be woken. */
  lemma RoundWakes(c: Config, run: seq<State>, steps: seq<Step>, i: nat, j: nat, r: Request)
    requires Run(c, run, steps) && RoundOf(c, run, steps, r, i, j) && GoodRequest(c, r)
    requires Inv(c, run[i]) && Marked(c, run[i], r) && Stage(run[i], r, 2)
    ensures At(c, run[i], run[j], r, 3)
  {
    if Stage(run[i], r, 3) {
      AtKeptLong(c, run, steps, run[i], i, j, r, 3);
    } else if run[i].loop == Poll(true) {
      var t: nat :| t < |run[i].senders| && InFlight(run[i].senders[t]);
      assert !Writing(run[i].senders[t]);
      assert Finishes(run, t, i, j);
      var m: nat :| i <= m <= j && m < |run| && t < |run[m].senders| && run[m].senders[t].Idle?;
      WaitsUntil(c, run, steps, i, m, r, t);
      OwnGrows(steps, i, m, j);
      WaitsUntil(c, run, steps, i, j, r, t);
      if At(c, run[i], run[m], r, 3) { AtKeptLong(c, run, steps, run[i], m, j, r, 3); }
    } else {
      WaitsUntil(c, run, steps, i, j, r, 0);
    }
  }

  // ----- the loop serves it -----

  lemma RunCloser(c: Config, s: State, s': State, r: Request)
    requires Shaped(c, s) && !InPipecb(s.loop) && GoodRequest(c, r) && Near(s, r) && RunStep(c, s, s')
    requires s.loop.Poll? ==> s'.loop == ClearWanted(s.fd > 0)
    ensures 0 <= Distance(c, s'.loop, r) < Distance(c, s.loop, r)
  {
    RunShaped(c, s, s');
  }

  lemma AsyncCloser(c: Config, s: State, r: Request)
    requires Shaped(c, s) && InPipecb(s.loop) && GoodRequest(c, r) && r.Async? && Marked(c, s, r) && Near(s, r)
    requires s.loop != AsyncFeed(r.w)
    ensures 0 <= Distance(c, PipeNext(c, s), r) < Distance(c, s.loop, r)
  {
  }

  lemma SignalCloser(c: Config, s: State, r: Request)
    requires Shaped(c, s) && InPipecb(s.loop) && GoodRequest(c, r) && r.Signal? && Marked(c, s, r) && Near(s, r)
    requires s.loop != SigFeed(r.n)
    ensures 0 <= Distance(c, PipeNext(c, s), r) < Distance(c, s.loop, r)
  {
  }

  lemma PipeCloser(c: Config, s: State, s': State, r: Request)
    requires Shaped(c, s) && InPipecb(s.loop) && GoodRequest(c, r) && Marked(c, s, r) && Near(s, r) && PipeStep(c, s, s')
    ensures Shaped(c, s')
    ensures Fed(c, s', r) > Fed(c, s, r) || 0 <= Distance(c, s'.loop, r) < Distance(c, s.loop, r)
  {
    PipeShaped(c, s, s');
    if r.Async? {
      if s.loop != AsyncFeed(r.w) { AsyncCloser(c, s, r); }
    } else {
      if s.loop != SigFeed(r.n) { SignalCloser(c, s, r); }
    }
  }

  /** Each step of the loop brings a request that is near closer to being served, and no step of a
      sender takes it back. */
  lemma CloserToServing(c: Config, s: State, s': State, step: Step, r: Request)
    requires Next(c, s, s', step) && GoodRequest(c, r) && Marked(c, s, r) && Near(s, r)
    requires step.OwnStep? && s.loop.Poll? ==> s'.loop == ClearWanted(s.fd > 0)
    ensures Shaped(c, s')
    ensures Fed(c, s', r) > Fed(c, s, r) || (Marked(c, s', r) && Near(s', r) && 0 <= Distance(c, s'.loop, r) &&
              Distance(c, s'.loop, r) + (if step.OwnStep? then 1 else 0) <= Distance(c, s.loop, r))
  {
    StageKept(c, s, s', step, r, 4);
    match step
    case BeginStep(t0, r0) => BeginShaped(c, s, s', t0, r0); DistanceNat(c, s, r);
    case SendStep(t0) => SendFrame(c, s, s', t0); DistanceNat(c, s, r);
    case OwnStep => if InPipecb(s.loop) { PipeCloser(c, s, s', r); } else { RunCloser(c, s, s', r); }
  }

  lemma DistanceNat(c: Config, s: State, r: Request)
    requires Shaped(c, s) && GoodRequest(c, r)
    ensures 0 <= Distance(c, s.loop, r) < Enough(c, r)
  {
  }

  /** The loop has come so far since s0, with m steps. */
  predicate Nears(c: Config, s0: State, s: State, r: Request, m: nat)
  {
    match s
    case State(_, _, _, _, _, _, _, loop) => Distance(c, loop, r) + m <= Distance(c, s0.loop, r)
  }

  lemma NearsStep(c: Config, s0: State, s: State, s': State, step: Step, r: Request, m: nat, m': nat)
    requires Next(c, s, s', step) && GoodRequest(c, r) && Marked(c, s, r) && Near(s, r)
    requires step.OwnStep? && s.loop.Poll? ==> s'.loop == ClearWanted(s.fd > 0)
    requires Nears(c, s0, s, r, m) && m' == m + if step.OwnStep? then 1 else 0
    ensures Shaped(c, s') && (Fed(c, s', r) > Fed(c, s, r) || Nears(c, s0, s', r, m'))
  {
    CloserToServing(c, s, s', step, r);
  }

  lemma {:induction false} NearUntil(c: Config, run: seq<State>, steps: seq<Step>, i: nat, j: nat, r: Request)
    requires Run(c, run, steps) && Honest(run, steps) && i <= j < |run| && GoodRequest(c, r)
    requires Shaped(c, run[i]) && At(c, run[i], run[i], r, 4)
    ensures Shaped(c, run[j])
    ensures Fed(c, run[j], r) > Fed(c, run[i], r) || Nears(c, run[i], run[j], r, Own(steps, i, j))
    decreases j - i
  {
    if i < j {
      NearUntil(c, run, steps, i, j - 1, r);
      AtKeptLong(c, run, steps, run[i], i, j - 1, r, 4);
      RunNext(c, run, steps, j - 1);
      assert HonestAt(run, steps, j - 1);
      OnlyServedMarksClear(c, run[j - 1], run[j], steps[j - 1], r);
      if Fed(c, run[j - 1], r) == Fed(c, run[i], r) {
        NearsStep(c, run[i], run[j - 1], run[j], steps[j - 1], r, Own(steps, i, j - 1), Own(steps, i, j));
      }
    }
  }

  /** A round from where the descriptor has been written, or the loop knows of the request. */
  lemma RoundServes(c: Config, run: seq<State>, steps: seq<Step>, i: nat, j: nat, r: Request)
    requires Run(c, run, steps) && Honest(run, steps) && RoundOf(c, run, steps, r, i, j) && GoodRequest(c, r)
    requires Shaped(c, run[i]) && Marked(c, run[i], r) && Near(run[i], r)
    ensures Shaped(c, run[j]) && Fed(c, run[j], r) > Fed(c, run[i], r)
  {
    NearUntil(c, run, steps, i, j, r);
    AtKeptLong(c, run, steps, run[i], i, j, r, 4);
    DistanceNat(c, run[i], r);
    DistanceNat(c, run[j], r);
  }

  /** Five rounds, one after the other. */
  ghost predicate Rounds(c: Config, run: seq<State>, steps: seq<Step>, r: Request, cuts: seq<nat>)
    requires |run| == |steps| + 1
  {
    |cuts| == 6 && forall k {:trigger cuts[k]} :: 0 <= k < 5 ==> RoundOf(c, run, steps, r, cuts[k], cuts[k + 1])
  }

  /** One round, whatever the stage. */
  lemma RoundOn(c: Config, run: seq<State>, steps: seq<Step>, s0: State, i: nat, j: nat, r: Request, k: nat)
    requires Run(c, run, steps) && Honest(run, steps) && RoundOf(c, run, steps, r, i, j) && GoodRequest(c, r) && k < 4
    requires Shaped(c, s0) && At(c, s0, run[i], r, k)
    ensures At(c, s0, run[j], r, k + 1)
  {
    RunInv(c, run, steps, i);
    if Fed(c, run[i], r) > Fed(c, s0, r) {
      AtKeptLong(c, run, steps, s0, i, j, r, k + 1);
    } else if k == 2 {
      RoundWakes(c, run, steps, i, j, r);
    } else {
      RoundAdvances(c, run, steps, i, j, r, k + 1);
    }
  }

  /** Main result: with any number of senders that begin and finish whenever they like, a request that
      has been made is served within five rounds. The loop need not ever be idle or time out: if it
      blocks, a sender wakes it up. */
  lemma RequestServed(c: Config, run: seq<State>, steps: seq<Step>, r: Request, cuts: seq<nat>)
    requires Run(c, run, steps) && Honest(run, steps) && Rounds(c, run, steps, r, cuts)
    requires GoodRequest(c, r) && Shaped(c, run[cuts[0]]) && Marked(c, run[cuts[0]], r)
    ensures Shaped(c, run[cuts[5]]) && Fed(c, run[cuts[5]], r) > Fed(c, run[cuts[0]], r)
  {
    var s0 := run[cuts[0]];
    assert cuts[0] <= cuts[0 + 1] && cuts[1] <= cuts[1 + 1] && cuts[2] <= cuts[2 + 1] && cuts[3] <= cuts[3 + 1];
    RoundOn(c, run, steps, s0, cuts[0], cuts[1], r, 0);
    RoundOn(c, run, steps, s0, cuts[1], cuts[2], r, 1);
    RoundOn(c, run, steps, s0, cuts[2], cuts[3], r, 2);
    RoundOn(c, run, steps, s0, cuts[3], cuts[4], r, 3);
    assert RoundOf(c, run, steps, r, cuts[4], cuts[4 + 1]);
    FedGrows(c, run, steps, cuts[4], cuts[5], r);
    if Fed(c, run[cuts[4]], r) == Fed(c, s0, r) {
      RoundServes(c, run, steps, cuts[4], cuts[5], r);
    }
  }

  // ----- nothing for nothing -----

  /** How often the request has been made in the first k steps. */
  function Sends(steps: seq<Step>, r: Request, k: nat): nat
    requires k <= |steps|
  {
    if k == 0 then 0 else Sends(steps, r, k - 1) + if steps[k - 1].BeginStep? && steps[k - 1].r == r then 1 else 0
  }

  /** The loop is about to feed the watcher or signal of r. */
  predicate AboutToFeed(pc: LoopPc, r: Request)
  {
    match r
    case Async(w) => pc == AsyncFeed(w)
    case Signal(n) => pc == SigFeed(n)
  }

  ghost predicate FeedsMarked(c: Config, s: State, r: Request)
  {
    Shaped(c, s) && GoodRequest(c, r) && (AboutToFeed(s.loop, r) ==> Marked(c, s, r))
  }

  ghost function Account(c: Config, s: State, r: Request): nat
    requires Shaped(c, s) && GoodRequest(c, r)
  {
    Fed(c, s, r) + if Marked(c, s, r) then 1 else 0
  }

  lemma LoopAccount(c: Config, s: State, s': State, r: Request)
    requires FeedsMarked(c, s, r) && LoopStep(c, s, s')
    ensures FeedsMarked(c, s', r) && Account(c, s', r) == Account(c, s, r)
  {
    LoopShaped(c, s, s');
    if InPipecb(s.loop) { PipeAccount(c, s, s', r); } else { RunShaped(c, s, s'); }
  }

  lemma PipeAccount(c: Config, s: State, s': State, r: Request)
    requires FeedsMarked(c, s, r) && InPipecb(s.loop) && PipeStep(c, s, s')
    ensures FeedsMarked(c, s', r) && Account(c, s', r) == Account(c, s, r)
  {
    PipeShaped(c, s, s');
    if s.loop.AsyncFeed? || s.loop.SigFeed? { FeedAccount(c, s, s', r); } else { ScanAccount(c, s, s', r); }
  }

  lemma FeedAccount(c: Config, s: State, s': State, r: Request)
    requires FeedsMarked(c, s, r) && (s.loop.AsyncFeed? || s.loop.SigFeed?) && PipeStep(c, s, s') && Shaped(c, s')
    ensures !AboutToFeed(s'.loop, r) && Account(c, s', r) == Account(c, s, r)
  {
    if s.loop.AsyncFeed? {
      assert s'.loop == AsyncScan(s.loop.i) && s'.marks.sigMarks == s.marks.sigMarks && s'.marks.fedSignal == s.marks.fedSignal;
    } else {
      assert s'.loop == SigScan(s.loop.i) && s'.marks.sent == s.marks.sent && s'.marks.fedAsync == s.marks.fedAsync;
    }
  }

  lemma ScanAccount(c: Config, s: State, s': State, r: Request)
    requires FeedsMarked(c, s, r) && InPipecb(s.loop) && !s.loop.AsyncFeed? && !s.loop.SigFeed? && PipeStep(c, s, s') && Shaped(c, s')
    ensures FeedsMarked(c, s', r) && s'.marks == s.marks
  {
    assert s'.marks == s.marks && s'.loop == PipeNext(c, s);
  }

  lemma BeginAccount(c: Config, s: State, s': State, t: nat, r0: Request, r: Request)
    requires FeedsMarked(c, s, r) && Begin(c, s, s', t, r0)
    ensures FeedsMarked(c, s', r) && Account(c, s', r) <= Account(c, s, r) + if r0 == r then 1 else 0
  {
    BeginShaped(c, s, s', t, r0);
  }

  lemma SendAccount(c: Config, s: State, s': State, t: nat, r: Request)
    requires FeedsMarked(c, s, r) && SenderStep(c, s, s', t)
    ensures FeedsMarked(c, s', r) && Account(c, s', r) == Account(c, s, r)
  {
    SendShaped(c, s, s', t);
    SendFrame(c, s, s', t);
  }

  /** Main result, the other way round: no watcher or signal is fed without having been asked for since it was
      last fed. In every run it is fed no more often than the request is made. */
  lemma {:induction false} FedForCause(c: Config, run: seq<State>, steps: seq<Step>, k: nat, r: Request)
    requires Run(c, run, steps) && k < |run| && GoodRequest(c, r)
    ensures FeedsMarked(c, run[0], r) && FeedsMarked(c, run[k], r)
    ensures Fed(c, run[k], r) + (if Marked(c, run[k], r) then 1 else 0) <= Fed(c, run[0], r) + Sends(steps, r, k)
  {
    if k > 0 {
      FedForCause(c, run, steps, k - 1, r);
      RunNext(c, run, steps, k - 1);
      match steps[k - 1]
      case BeginStep(t, r0) => BeginAccount(c, run[k - 1], run[k], t, r0, r);
      case SendStep(t) => SendAccount(c, run[k - 1], run[k], t, r);
      case OwnStep => LoopAccount(c, run[k - 1], run[k], r);
    }
  }

  /** pipe_write_wanted is up exactly from before the loop looks at pipe_write_skipped until after the poll. */
  lemma {:induction false} WantedWhile(c: Config, run: seq<State>, steps: seq<Step>, k: nat)
    requires Run(c, run, steps) && k < |run|
    ensures run[k].wanted <==> run[k].loop.TestSkipped? || run[k].loop.Poll? || run[k].loop.ClearWanted?
  {
    if k > 0 {
      WantedWhile(c, run, steps, k - 1);
      RunNext(c, run, steps, k - 1);
      WantedStep(c, run[k - 1], run[k], steps[k - 1]);
    }
  }

  lemma WantedStep(c: Config, s: State, s': State, step: Step)
    requires Next(c, s, s', step) && (s.wanted <==> s.loop.TestSkipped? || s.loop.Poll? || s.loop.ClearWanted?)
    ensures s'.wanted <==> s'.loop.TestSkipped? || s'.loop.Poll? || s'.loop.ClearWanted?
  {
    match step
    case BeginStep(t, r) => BeginShaped(c, s, s', t, r);
    case SendStep(t) => SendFrame(c, s, s', t);
    case OwnStep =>
      if InPipecb(s.loop) { PipeWanted(c, s, s'); } else { RunWanted(c, s, s'); }
  }

  lemma PipeWanted(c: Config, s: State, s': State)
    requires Shaped(c, s) && InPipecb(s.loop) && PipeStep(c, s, s')
    ensures s'.wanted == s.wanted && !s'.loop.TestSkipped? && !s'.loop.Poll? && !s'.loop.ClearWanted?
  {
    assert s'.loop == PipeNext(c, s);
  }

  lemma RunWanted(c: Config, s: State, s': State)
    requires Shaped(c, s) && !InPipecb(s.loop) && RunStep(c, s, s')
    requires s.wanted <==> s.loop.TestSkipped? || s.loop.Poll? || s.loop.ClearWanted?
    ensures s'.wanted <==> s'.loop.TestSkipped? || s'.loop.Poll? || s'.loop.ClearWanted?
  {
  }

  /** Thread t, at step i, has seen that nobody had raised the flag of r. */
  ghost predicate SawNoFlag(run: seq<State>, t: nat, r: Request, i: nat)
  {
    i < |run| && t < |run[i].senders| && run[i].senders[t] == CheckFlag(r) && !Flag(run[i], r)
  }

  /** ... and that the loop was about to block or blocked. */
  ghost predicate SawWanted(run: seq<State>, t: nat, r: Request, j: nat)
  {
    j < |run| && t < |run[j].senders| && run[j].senders[t] == TestWanted(r) && run[j].wanted
  }

  ghost predicate WentOn(run: seq<State>, t: nat, r: Request, k: nat)
  {
    exists i :: 0 <= i < k && SawNoFlag(run, t, r, i)
  }

  ghost predicate GoesToWrite(run: seq<State>, t: nat, r: Request, k: nat)
  {
    exists i, j :: 0 <= i < j < k && SawNoFlag(run, t, r, i) && SawWanted(run, t, r, j)
  }

  /** What a sender has seen on its way. */
  ghost predicate Way(run: seq<State>, t: nat, k: nat)
    requires k < |run|
  {
    t < |run[k].senders| ==>
      match run[k].senders[t]
      case Idle => true
      case CheckFlag(_) => true
      case SetFlag(r) => WentOn(run, t, r, k)
      case SetSkipped(r) => WentOn(run, t, r, k)
      case TestWanted(r) => WentOn(run, t, r, k)
      case ClearSkipped(r) => GoesToWrite(run, t, r, k)
      case WriteFd(r) => GoesToWrite(run, t, r, k)
  }

  lemma WayStep(c: Config, run: seq<State>, steps: seq<Step>, t: nat, k: nat)
    requires Run(c, run, steps) && k + 1 < |run| && Way(run, t, k) && t < |run[k].senders|
    ensures Way(run, t, k + 1)
  {
    var s, s' := run[k], run[k + 1];
    RunNext(c, run, steps, k);
    if steps[k] == SendStep(t) {
      SendMoves(c, s, s', t);
      match s.senders[t] {
        case CheckFlag(r) => assert !Flag(s, r) ==> SawNoFlag(run, t, r, k);
        case TestWanted(r) =>
          var i :| 0 <= i < k && SawNoFlag(run, t, r, i);
          assert s.wanted ==> SawWanted(run, t, r, k);
        case _ =>
      }
    } else {
      OthersStay(c, s, s', steps[k], t);
    }
  }

  lemma OthersStay(c: Config, s: State, s': State, step: Step, t: nat)
    requires Next(c, s, s', step) && t < |s.senders| && step != SendStep(t)
    ensures t < |s'.senders| && (s'.senders[t] == s.senders[t] || s'.senders[t].CheckFlag?)
  {
    match step
    case BeginStep(u, r) => BeginShaped(c, s, s', u, r);
    case SendStep(u) => SendMoves(c, s, s', u);
    case OwnStep => LoopShaped(c, s, s');
  }

  lemma SendersStay(c: Config, s: State, s': State, step: Step)
    requires Next(c, s, s', step)
    ensures |s'.senders| == |s.senders|
  {
    match step
    case BeginStep(u, r) => BeginShaped(c, s, s', u, r);
    case SendStep(u) => SendMoves(c, s, s', u);
    case OwnStep => LoopShaped(c, s, s');
  }

  /** The descriptor is written only by a sender that was the first to raise its flag, and then found that the
      loop wanted to be woken. */
  lemma {:induction false} WritesForCause(c: Config, run: seq<State>, steps: seq<Step>, k: nat, t: nat)
    requires Run(c, run, steps) && k < |run|
    ensures Way(run, t, k)
  {
    if k > 0 {
      WritesForCause(c, run, steps, k - 1, t);
      RunNext(c, run, steps, k - 1);
      SendersStay(c, run[k - 1], run[k], steps[k - 1]);
      if t < |run[k].senders| { WayStep(c, run, steps, t, k - 1); }
    }
  }
}
