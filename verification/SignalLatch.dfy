/** Relaying the stop and abort latches to one child across any number of
    abandoned and resumed Waits (cmd/launcher/daemon/runner.go): a Wait, its
    forwarding goroutine and the latches as a state machine. */
module SignalLatch {
  datatype Signal = SigTerm | SigInt

  /** Where the forwarding goroutine of the current Wait is. */
  datatype Forwarder =
    | NoForwarder
    | Started
    | AwaitStop
    | TermLatched // the latch is set, the signal not yet sent
    | TermDone
    | AwaitAbort
    | IntLatched
    | Exited

  /** Where the handle's Wait is; `Stopping` has closed done and waits for the
      goroutine. */
  datatype Waiter = NotWaiting | Reading | Stopping(reaped: bool) | ChildGone

  datatype State = State(
    stop: bool, abort: bool,      // closed latches
    sentTerm: bool, sentInt: bool, // signalsSent, which outlives a Wait
    waiter: Waiter, forwarder: Forwarder,
    log: seq<Signal>)

  const FRESH := State(false, false, false, false, NotWaiting, NoForwarder, [])

  /** The steps of the latches' owner, of the goroutine in Wait and of the
      forwarding goroutine, whose selects pick any case that is ready. */
  datatype Step =
    | CloseStop | CloseAbort
    | BeginWait | AbandonRead | ReachEof | ReturnWait
    | CheckTerm | TakeStop | SendTerm | CheckInt | TakeAbort | SendInt | TakeDone

  predicate Done(s: State) {
    s.waiter.Stopping?
  }

  predicate Enabled(s: State, step: Step) {
    match step
    case CloseStop => !s.stop
    case CloseAbort => !s.abort
    case BeginWait => s.waiter == NotWaiting
    case AbandonRead => s.waiter == Reading
    case ReachEof => s.waiter == Reading
    case ReturnWait => Done(s) && s.forwarder == Exited
    case CheckTerm => s.forwarder == Started
    case TakeStop => s.forwarder == AwaitStop && s.stop
    case SendTerm => s.forwarder == TermLatched
    case CheckInt => s.forwarder == TermDone
    case TakeAbort => s.forwarder == AwaitAbort && s.abort
    case SendInt => s.forwarder == IntLatched
    case TakeDone => s.forwarder in {AwaitStop, AwaitAbort} && Done(s)
  }

  function Next(s: State, step: Step): State
    requires Enabled(s, step)
  {
    match step
    case CloseStop => s.(stop := true)
    case CloseAbort => s.(abort := true)
    case BeginWait => s.(waiter := Reading, forwarder := Started)
    case AbandonRead => s.(waiter := Stopping(false))
    case ReachEof => s.(waiter := Stopping(true))
    case ReturnWait => s.(waiter := if s.waiter.reaped then ChildGone else NotWaiting, forwarder := NoForwarder)
    case CheckTerm => s.(forwarder := if s.sentTerm then TermDone else AwaitStop)
    case TakeStop => s.(forwarder := TermLatched, sentTerm := true)
    case SendTerm => s.(forwarder := TermDone, log := s.log + [SigTerm])
    case CheckInt => s.(forwarder := if s.sentInt then Exited else AwaitAbort)
    case TakeAbort => s.(forwarder := IntLatched, sentInt := true)
    case SendInt => s.(forwarder := Exited, log := s.log + [SigInt])
    case TakeDone => s.(forwarder := Exited)
  }

  /** The states after every enabled step of a schedule; a step that is not
      enabled is skipped. */
  function Run(s: State, steps: seq<Step>): State {
    if steps == [] then s
    else
      var t := Run(s, steps[..|steps| - 1]);
      if Enabled(t, steps[|steps| - 1]) then Next(t, steps[|steps| - 1]) else t
  }

  /** The latches say exactly what was sent, but for a signal about to go out;
      every signal had its cause; and a forwarder lives only inside a Wait. */
  ghost predicate Inv(s: State) {
    && s.log == (if s.sentInt && s.forwarder != IntLatched then [SigTerm, SigInt]
                 else if s.sentTerm && s.forwarder != TermLatched then [SigTerm]
                 else [])
    && (s.sentInt ==> s.sentTerm)
    && (s.sentTerm ==> s.stop) && (s.sentInt ==> s.abort)
    && (s.forwarder in {TermDone, AwaitAbort, IntLatched} ==> s.sentTerm)
    && (s.forwarder == TermLatched ==> s.sentTerm && !s.sentInt)
    && (s.forwarder == IntLatched ==> s.sentInt)
    && (s.forwarder == AwaitStop ==> !s.sentTerm)
    && (s.forwarder == AwaitAbort ==> !s.sentInt)
    && (s.forwarder == NoForwarder <==> s.waiter in {NotWaiting, ChildGone})
    && (s.forwarder == Exited && !Done(s) ==> s.sentTerm && s.sentInt)
  }

  lemma StepKeepsInv(s: State, step: Step)
    requires Inv(s) && Enabled(s, step)
    ensures Inv(Next(s, step))
  {
  }

  lemma {:induction false} RunKeepsInv(steps: seq<Step>)
    ensures Inv(Run(FRESH, steps))
  {
    if steps != [] {
      RunKeepsInv(steps[..|steps| - 1]);
      var t := Run(FRESH, steps[..|steps| - 1]);
      if Enabled(t, steps[|steps| - 1]) {
        StepKeepsInv(t, steps[|steps| - 1]);
      }
    }
  }

  /** A latch is closed exactly when its owner has closed it. */
  lemma {:induction false} LatchesClose(steps: seq<Step>)
    ensures var s := Run(FRESH, steps); (s.stop <==> CloseStop in steps) && (s.abort <==> CloseAbort in steps)
  {
    if steps != [] {
      var n := |steps| - 1;
      LatchesClose(steps[..n]);
      assert steps == steps[..n] + [steps[n]];
    }
  }

  /** Over any schedule a child gets nothing, one SIGTERM, or one SIGTERM and then
      one SIGINT, and each only after its latch closed. */
  lemma SignalsOverARun(steps: seq<Step>)
    ensures var s := Run(FRESH, steps);
      && (s.log == [] || s.log == [SigTerm] || s.log == [SigTerm, SigInt])
      && (SigTerm in s.log ==> CloseStop in steps) && (SigInt in s.log ==> CloseAbort in steps)
  {
    RunKeepsInv(steps);
    LatchesClose(steps);
    hide Run;
  }

  /** Between the return of one Wait and the start of the next, and once the child
      is gone, nothing is sent. */
  lemma {:induction false} NothingSentOutsideAWait(steps: seq<Step>, later: seq<Step>)
    requires Run(FRESH, steps).waiter in {NotWaiting, ChildGone}
    requires BeginWait !in later || Run(FRESH, steps).waiter == ChildGone
    ensures Run(FRESH, steps + later).log == Run(FRESH, steps).log
    ensures Run(FRESH, steps + later).waiter == Run(FRESH, steps).waiter
  {
    if later == [] {
      assert steps + later == steps;
    } else {
      var n := |later| - 1;
      assert (steps + later)[..|steps + later| - 1] == steps + later[..n];
      NothingSentOutsideAWait(steps, later[..n]);
      RunKeepsInv(steps + later[..n]);
      var t := Run(FRESH, steps + later[..n]);
      if Enabled(t, later[n]) {
        QuietStep(t, later[n]);
      }
      hide Inv, Next, Enabled;
    }
  }

  lemma QuietStep(s: State, step: Step)
    requires Inv(s) && s.waiter in {NotWaiting, ChildGone} && Enabled(s, step)
    requires step != BeginWait || s.waiter == ChildGone
    ensures Next(s, step).log == s.log && Next(s, step).waiter == s.waiter
  {
  }

  /** The forwarder has nothing left to do until a latch closes. */
  predicate Blocked(s: State) {
    && !Enabled(s, CheckTerm) && !Enabled(s, TakeStop) && !Enabled(s, SendTerm)
    && !Enabled(s, CheckInt) && !Enabled(s, TakeAbort) && !Enabled(s, SendInt) && !Enabled(s, TakeDone)
  }

  /** No closed latch is lost: while a Wait is reading and its forwarder has come
      to rest, a closed stop has been relayed, and a closed abort behind it. */
  lemma LatchesAreRelayed(steps: seq<Step>)
    ensures var s := Run(FRESH, steps);
      s.waiter == Reading && Blocked(s) ==>
        && (SigTerm in s.log <==> CloseStop in steps)
        && (SigInt in s.log <==> CloseStop in steps && CloseAbort in steps)
  {
    RunKeepsInv(steps);
    LatchesClose(steps);
    hide Run;
  }

  /** The forwarding goroutine's own steps. */
  predicate Forwarding(step: Step) {
    step in {CheckTerm, TakeStop, SendTerm, CheckInt, TakeAbort, SendInt, TakeDone}
  }

  /** How many steps the forwarder has left at most. */
  function Left(f: Forwarder): nat {
    match f
    case NoForwarder => 0
    case Started => 6
    case AwaitStop => 5
    case TermLatched => 4
    case TermDone => 3
    case AwaitAbort => 2
    case IntLatched => 1
    case Exited => 0
  }

  lemma ForwarderStep(s: State) returns (step: Step)
    requires !Blocked(s)
    ensures Forwarding(step) && Enabled(s, step)
    ensures Next(s, step).waiter == s.waiter && Left(Next(s, step).forwarder) < Left(s.forwarder)
  {
    step := if Enabled(s, CheckTerm) then CheckTerm
            else if Enabled(s, TakeStop) then TakeStop
            else if Enabled(s, SendTerm) then SendTerm
            else if Enabled(s, CheckInt) then CheckInt
            else if Enabled(s, TakeAbort) then TakeAbort
            else if Enabled(s, SendInt) then SendInt
            else TakeDone;
  }

  /** The forwarder does come to rest, by its own steps alone. */
  lemma {:induction false} ComesToRest(s: State) returns (steps: seq<Step>)
    ensures forall i :: 0 <= i < |steps| ==> Forwarding(steps[i])
    ensures Blocked(Run(s, steps)) && Run(s, steps).waiter == s.waiter
  {
    steps := [];
    while !Blocked(Run(s, steps))
      invariant forall i :: 0 <= i < |steps| ==> Forwarding(steps[i])
      invariant Run(s, steps).waiter == s.waiter
      decreases Left(Run(s, steps).forwarder)
    {
      var step := ForwarderStep(Run(s, steps));
      assert (steps + [step])[..|steps|] == steps;
      steps := steps + [step];
    }
  }

  /** Returning is never blocked for good: once done is closed some step of the
      forwarder is enabled until the Wait can return. */
  lemma ReturnIsReachable(steps: seq<Step>)
    ensures var s := Run(FRESH, steps);
      Done(s) && Blocked(s) ==> Enabled(s, ReturnWait)
  {
    hide Run, Inv, Done, Blocked;
    RunKeepsInv(steps);
    if Done(Run(FRESH, steps)) && Blocked(Run(FRESH, steps)) {
      RestedReturns(Run(FRESH, steps));
    }
  }

  /** A Wait that reads can end either way whatever has been sent, and then returns
      after steps of its forwarder alone. */
  lemma {:induction false} WaitCanReturn(steps: seq<Step>, ended: Step) returns (rest: seq<Step>)
    requires Run(FRESH, steps).waiter == Reading && ended in {AbandonRead, ReachEof}
    ensures Enabled(Run(FRESH, steps), ended)
    ensures forall i :: 0 <= i < |rest| ==> Forwarding(rest[i])
    ensures Enabled(Run(Next(Run(FRESH, steps), ended), rest), ReturnWait)
  {
    hide Inv, Run;
    RunKeepsInv(steps);
    var s := Run(FRESH, steps);
    StepKeepsInv(s, ended);
    EndedRead(s, ended);
    rest := ComesToRest(Next(s, ended));
    NotForwarding(rest);
    EndStands(Next(s, ended), rest);
    RestedReturns(Run(Next(s, ended), rest));
  }

  lemma EndedRead(s: State, ended: Step)
    requires s.waiter == Reading && ended in {AbandonRead, ReachEof}
    ensures Enabled(s, ended) && Done(Next(s, ended))
  {
  }

  lemma NotForwarding(steps: seq<Step>)
    requires forall i :: 0 <= i < |steps| ==> Forwarding(steps[i])
    ensures ReturnWait !in steps
  {
  }

  lemma RestedReturns(s: State)
    requires Inv(s) && Done(s) && Blocked(s)
    ensures Enabled(s, ReturnWait)
  {
  }

  /** Until a Wait returns, what its read ended in stands. */
  lemma {:induction false} EndStands(s: State, steps: seq<Step>)
    requires Inv(s) && Done(s) && ReturnWait !in steps
    ensures Inv(Run(s, steps)) && Run(s, steps).waiter == s.waiter
  {
    if steps != [] {
      var n := |steps| - 1;
      EndStands(s, steps[..n]);
      var t := Run(s, steps[..n]);
      if Enabled(t, steps[n]) {
        StepKeepsInv(t, steps[n]);
      }
    }
  }

  lemma {:induction false} GoneForGood(s: State, later: seq<Step>)
    requires Inv(s) && s.waiter == ChildGone
    ensures Inv(Run(s, later)) && Run(s, later).waiter == ChildGone && Run(s, later).log == s.log
  {
    if later != [] {
      var n := |later| - 1;
      GoneForGood(s, later[..n]);
      var t := Run(s, later[..n]);
      if Enabled(t, later[n]) {
        StepKeepsInv(t, later[n]);
        QuietStep(t, later[n]);
      }
    }
  }

  /** A Wait that read to the end of the report reaps the child: once it has
      returned, no Wait begins on it and no signal goes to it, ever. */
  lemma EofEndsTheChild(steps: seq<Step>, until: seq<Step>, later: seq<Step>)
    requires Enabled(Run(FRESH, steps), ReachEof) && ReturnWait !in until
    requires Enabled(Run(Next(Run(FRESH, steps), ReachEof), until), ReturnWait)
    ensures var t := Run(Next(Run(FRESH, steps), ReachEof), until);
      var u := Run(Next(t, ReturnWait), later);
      u.log == t.log && !Enabled(u, BeginWait)
  {
    RunKeepsInv(steps);
    var s := Run(FRESH, steps);
    StepKeepsInv(s, ReachEof);
    EndStands(Next(s, ReachEof), until);
    var t := Run(Next(s, ReachEof), until);
    StepKeepsInv(t, ReturnWait);
    GoneForGood(Next(t, ReturnWait), later);
    hide Run;
  }

  /** A Wait whose read was abandoned leaves the handle to be waited on again, and
      nothing is sent until it is. */
  lemma {:induction false} AbandonedIsResumable(steps: seq<Step>, until: seq<Step>, later: seq<Step>)
    requires Enabled(Run(FRESH, steps), AbandonRead) && ReturnWait !in until && BeginWait !in later
    requires Enabled(Run(Next(Run(FRESH, steps), AbandonRead), until), ReturnWait)
    ensures var t := Run(Next(Run(FRESH, steps), AbandonRead), until);
      var u := Run(Next(t, ReturnWait), later);
      u.log == t.log && Enabled(u, BeginWait)
  {
    RunKeepsInv(steps);
    var s := Run(FRESH, steps);
    StepKeepsInv(s, AbandonRead);
    EndStands(Next(s, AbandonRead), until);
    var t := Run(Next(s, AbandonRead), until);
    StepKeepsInv(t, ReturnWait);
    IdleStays(Next(t, ReturnWait), later);
    hide Run;
  }

  lemma {:induction false} IdleStays(s: State, later: seq<Step>)
    requires Inv(s) && s.waiter == NotWaiting && BeginWait !in later
    ensures Inv(Run(s, later)) && Run(s, later).waiter == NotWaiting && Run(s, later).log == s.log
  {
    if later != [] {
      var n := |later| - 1;
      IdleStays(s, later[..n]);
      var t := Run(s, later[..n]);
      if Enabled(t, later[n]) {
        StepKeepsInv(t, later[n]);
        QuietStep(t, later[n]);
      }
    }
  }
}
