/** Resolving the tip with one fetch in flight for any number of callers
    (cmd/launcher/daemon/runner.go): every interleaving at the granularity of the
    lock, the fetch and the evaluation. */
module TipFlight {
  import opened Options

  type Caller = nat
  type FlightId = nat
  type Revision = int
  type Path = string

  datatype Tip = Tip(revision: Revision, selfPath: Path, moved: bool)

  datatype Outcome = Resolved(tip: Tip) | FetchFailed(error: int) | EvalFailed(tip: Tip, error: int)

  /** Where a leader is: inside resolveTipOnce up to `Decided`, then publishing its
      outcome, clearing the registration and closing done. */
  datatype Stage =
    | Fetching
    | Fetched(revision: Revision)
    | MemoCheck(revision: Revision, moved: bool)
    | Evaluating(revision: Revision, moved: bool)
    | Evaluated(revision: Revision, moved: bool, path: Path)
    | Decided(outcome: Outcome)
    | Clearing(outcome: Outcome)
    | Closing(outcome: Outcome)

  datatype Progress =
    | Calling
    | Joined(flight: FlightId)
    | Leading(flight: FlightId, stage: Stage)
    | Returned(flight: FlightId, outcome: Outcome)
    | Cancelled

  /** `asked` counts the fetches that had come back when the call began. */
  datatype Call = Call(asked: nat, progress: Progress)

  datatype Flight = Flight(leader: Caller, fetchedAt: Option<nat>, outcome: Option<Outcome>, done: bool)

  /** `fetches` lists every revision a fetch has yielded and `evaluated` every
      path an evaluation has; the code keeps only the last of each. */
  datatype State = State(
    selfCheck: bool,
    flight: Option<FlightId>, flights: seq<Flight>,
    fetches: seq<Revision>, memo: Option<(Revision, Path)>, evaluated: set<(Revision, Path)>,
    prebuilt: Option<Tip>,
    calls: map<Caller, Call>)

  function Fresh(selfCheck: bool): State {
    State(selfCheck, None, [], [], None, {}, None, map[])
  }

  datatype Step =
    | Ask(c: Caller)
    | Enter(c: Caller)
    | TakeOutcome(c: Caller)
    | CancelJoin(c: Caller)
    | FetchFail(c: Caller, error: int)
    | FetchOk(c: Caller, revision: Revision)
    | SetBaseline(c: Caller)
    | CheckMemo(c: Caller)
    | EvalFail(c: Caller, error: int)
    | EvalOk(c: Caller, path: Path)
    | SetMemo(c: Caller)
    | Publish(c: Caller)
    | Clear(c: Caller)
    | Close(c: Caller)
    | Prebuild(tip: Tip)

  function At(s: State, c: Caller): Option<Progress> {
    if c in s.calls then Some(s.calls[c].progress) else None
  }

  function StageOf(s: State, c: Caller): Option<Stage> {
    match At(s, c)
    case Some(Leading(_, stage)) => Some(stage)
    case _ => None
  }

  predicate Enabled(s: State, step: Step) {
    match step
    case Ask(c) => At(s, c).None?
    case Enter(c) => At(s, c) == Some(Calling)
    case TakeOutcome(c) =>
      var p := At(s, c);
      p.Some? && p.value.Joined? && p.value.flight < |s.flights|
      && s.flights[p.value.flight].done && s.flights[p.value.flight].outcome.Some?
    case CancelJoin(c) => var p := At(s, c); p.Some? && p.value.Joined?
    case FetchFail(c, _) => StageOf(s, c) == Some(Fetching)
    case FetchOk(c, _) => StageOf(s, c) == Some(Fetching)
    case SetBaseline(c) => var g := StageOf(s, c); g.Some? && g.value.Fetched? && FlightOf(s, c) < |s.flights|
    case CheckMemo(c) => var g := StageOf(s, c); g.Some? && g.value.MemoCheck?
    case EvalFail(c, _) => var g := StageOf(s, c); g.Some? && g.value.Evaluating?
    case EvalOk(c, _) => var g := StageOf(s, c); g.Some? && g.value.Evaluating?
    case SetMemo(c) => var g := StageOf(s, c); g.Some? && g.value.Evaluated?
    case Publish(c) => var g := StageOf(s, c); g.Some? && g.value.Decided? && FlightOf(s, c) < |s.flights|
    case Clear(c) => var g := StageOf(s, c); g.Some? && g.value.Clearing?
    case Close(c) => var g := StageOf(s, c); g.Some? && g.value.Closing? && FlightOf(s, c) < |s.flights|
    case Prebuild(_) => true
  }

  function FlightOf(s: State, c: Caller): FlightId
    requires StageOf(s, c).Some?
  {
    s.calls[c].progress.flight
  }

  /** The registered flight's fetch has come back and is not recorded yet. */
  predicate Pending(s: State) {
    && s.flight.Some? && s.flight.value < |s.flights|
    && var g := StageOf(s, s.flights[s.flight.value].leader);
       g.Some? && g.value.Fetched?
  }

  /** How many fetches have come back. */
  function Done(s: State): nat {
    |s.fetches| + if Pending(s) then 1 else 0
  }

  function Goes(s: State, c: Caller, p: Progress): State
    requires c in s.calls
  {
    s.(calls := s.calls[c := s.calls[c].(progress := p)])
  }

  function GoesTo(s: State, c: Caller, stage: Stage): State
    requires StageOf(s, c).Some?
  {
    Goes(s, c, Leading(FlightOf(s, c), stage))
  }

  /** The revision differs from the one the previous successful fetch yielded. */
  predicate MovedAt(fetches: seq<Revision>, i: nat)
    requires i < |fetches|
  {
    i > 0 && fetches[i - 1] != fetches[i]
  }

  function Next(s: State, step: Step): State
    requires Enabled(s, step)
  {
    match step
    case Ask(c) => s.(calls := s.calls[c := Call(Done(s), Calling)])
    case Enter(c) =>
      if s.flight.Some? then Goes(s, c, Joined(s.flight.value))
      else
        var f := |s.flights|;
        Goes(s, c, Leading(f, Fetching)).(
          flight := Some(f), flights := s.flights + [Flight(c, None, None, false)])
    case TakeOutcome(c) =>
      var f := At(s, c).value.flight;
      Goes(s, c, Returned(f, s.flights[f].outcome.value))
    case CancelJoin(c) => Goes(s, c, Cancelled)
    case FetchFail(c, e) => GoesTo(s, c, Decided(FetchFailed(e)))
    case FetchOk(c, revision) => GoesTo(s, c, Fetched(revision))
    case SetBaseline(c) =>
      var revision, f := StageOf(s, c).value.revision, FlightOf(s, c);
      var moved := |s.fetches| > 0 && s.fetches[|s.fetches| - 1] != revision;
      var t := GoesTo(s, c, if s.selfCheck then MemoCheck(revision, moved)
                            else Decided(Resolved(Tip(revision, "", moved))));
      t.(fetches := s.fetches + [revision],
         flights := s.flights[f := s.flights[f].(fetchedAt := Some(|s.fetches|))])
    case CheckMemo(c) =>
      var g := StageOf(s, c).value;
      if s.memo.Some? && s.memo.value.0 == g.revision
      then GoesTo(s, c, Decided(Resolved(Tip(g.revision, s.memo.value.1, g.moved))))
      else GoesTo(s, c, Evaluating(g.revision, g.moved))
    case EvalFail(c, e) =>
      var g := StageOf(s, c).value;
      GoesTo(s, c, Decided(EvalFailed(Tip(g.revision, "", g.moved), e)))
    case EvalOk(c, path) =>
      var g := StageOf(s, c).value;
      GoesTo(s, c, Evaluated(g.revision, g.moved, path)).(evaluated := s.evaluated + {(g.revision, path)})
    case SetMemo(c) =>
      var g := StageOf(s, c).value;
      GoesTo(s, c, Decided(Resolved(Tip(g.revision, g.path, g.moved)))).(memo := Some((g.revision, g.path)))
    case Publish(c) =>
      var o, f := StageOf(s, c).value.outcome, FlightOf(s, c);
      GoesTo(s, c, Clearing(o)).(flights := s.flights[f := s.flights[f].(outcome := Some(o))])
    case Clear(c) => GoesTo(s, c, Closing(StageOf(s, c).value.outcome)).(flight := None)
    case Close(c) =>
      var o, f := StageOf(s, c).value.outcome, FlightOf(s, c);
      Goes(s, c, Returned(f, o)).(flights := s.flights[f := s.flights[f].(done := true)])
    case Prebuild(tip) => s.(prebuilt := Some(tip))
  }

  /** A schedule; steps that are not enabled are skipped. */
  function Run(selfCheck: bool, steps: seq<Step>): State {
    if steps == [] then Fresh(selfCheck)
    else
      var s, step := Run(selfCheck, steps[..|steps| - 1]), steps[|steps| - 1];
      if Enabled(s, step) then Next(s, step) else s
  }

  /** A tip whose revision a fetch yielded as the i-th, with its exact Moved. */
  predicate TipAt(fetches: seq<Revision>, i: nat, revision: Revision, moved: bool) {
    i < |fetches| && fetches[i] == revision && (moved <==> MovedAt(fetches, i))
  }

  /** What an outcome promises: the revision and Moved of the flight's own fetch,
      and the path evaluated at that revision (none without the self check). */
  predicate OutcomeOk(s: State, at: Option<nat>, o: Outcome) {
    match o
    case FetchFailed(_) => true
    case EvalFailed(tip, _) => at.Some? && TipAt(s.fetches, at.value, tip.revision, tip.moved) && tip.selfPath == ""
    case Resolved(tip) =>
      && at.Some? && TipAt(s.fetches, at.value, tip.revision, tip.moved)
      && (if s.selfCheck then (tip.revision, tip.selfPath) in s.evaluated else tip.selfPath == "")
  }

  predicate InsideResolve(g: Stage) {
    !g.Clearing? && !g.Closing?
  }

  predicate StageOk(s: State, asked: nat, flight: Flight, g: Stage) {
    var at := flight.fetchedAt;
    match g
    case Fetching => at.None? && asked <= |s.fetches|
    case Fetched(_) => at.None? && asked <= |s.fetches|
    case MemoCheck(revision, moved) =>
      at.Some? && asked <= at.value && TipAt(s.fetches, at.value, revision, moved) && s.selfCheck
    case Evaluating(revision, moved) =>
      at.Some? && asked <= at.value && TipAt(s.fetches, at.value, revision, moved) && s.selfCheck
    case Evaluated(revision, moved, path) =>
      && at.Some? && asked <= at.value && TipAt(s.fetches, at.value, revision, moved) && s.selfCheck
      && (revision, path) in s.evaluated
    case Decided(o) => OutcomeOk(s, at, o) && (at.Some? ==> asked <= at.value)
    case Clearing(o) => flight.outcome == Some(o) && (at.Some? ==> asked <= at.value)
    case Closing(o) => flight.outcome == Some(o) && (at.Some? ==> asked <= at.value)
  }

  ghost predicate CallOk(s: State, c: Caller)
    requires c in s.calls
  {
    s.calls[c].asked <= Done(s) &&
    match s.calls[c].progress
    case Calling => true
    case Joined(f) => f < |s.flights| && s.flights[f].leader != c
    case Leading(f, g) =>
      && f < |s.flights| && s.flights[f].leader == c && !s.flights[f].done
      && (!g.Closing? ==> s.flight == Some(f))
      && (InsideResolve(g) ==> s.flights[f].outcome.None?)
      && StageOk(s, s.calls[c].asked, s.flights[f], g)
    case Returned(f, o) =>
      && f < |s.flights| && s.flights[f].outcome == Some(o) && s.flights[f].done
      && (s.flights[f].leader == c && s.flights[f].fetchedAt.Some? ==> s.calls[c].asked <= s.flights[f].fetchedAt.value)
    case Cancelled => true
  }

  ghost predicate FlightOk(s: State, f: FlightId)
    requires f < |s.flights|
  {
    && (s.flights[f].outcome.Some? ==> OutcomeOk(s, s.flights[f].fetchedAt, s.flights[f].outcome.value))
    && (s.flights[f].done ==> s.flights[f].outcome.Some?)
    && (s.flights[f].fetchedAt.Some? ==> s.flights[f].fetchedAt.value < |s.fetches|)
    && s.flights[f].leader in s.calls
    && !s.calls[s.flights[f].leader].progress.Calling?
  }

  /** The registered flight is one that its leader still leads and has not cleared. */
  predicate RegisteredLed(s: State) {
    s.flight.Some? ==>
      && s.flight.value < |s.flights|
      && var p := At(s, s.flights[s.flight.value].leader);
         p.Some? && p.value.Leading? && p.value.flight == s.flight.value && !p.value.stage.Closing?
  }

  ghost predicate Inv(s: State) {
    && (forall c :: c in s.calls ==> CallOk(s, c))
    && (forall f :: 0 <= f < |s.flights| ==> FlightOk(s, f))
    && (s.memo.Some? ==> s.memo.value in s.evaluated)
    && RegisteredLed(s)
  }

  /** The caller a step belongs to. */
  function Of(step: Step): Option<Caller> {
    match step
    case Prebuild(_) => None
    case _ => Some(step.c)
  }

  /** How one caller's step may change what the others see. */
  ghost predicate Grows(s: State, t: State, c: Caller) {
    && t.selfCheck == s.selfCheck
    && s.fetches <= t.fetches && s.evaluated <= t.evaluated && Done(s) <= Done(t)
    && |s.flights| <= |t.flights|
    && (forall f :: 0 <= f < |s.flights| && s.flights[f].leader != c ==> t.flights[f] == s.flights[f])
    && (forall f :: 0 <= f < |s.flights| ==>
          && t.flights[f].leader == s.flights[f].leader
          && (s.flights[f].done ==> t.flights[f].done)
          && (s.flights[f].outcome.Some? ==>
                t.flights[f].outcome == s.flights[f].outcome && t.flights[f].fetchedAt == s.flights[f].fetchedAt))
    && (t.flight != s.flight ==> s.flight.None? || (s.flight.value < |s.flights| && s.flights[s.flight.value].leader == c))
    && (forall d :: d in s.calls && d != c ==> d in t.calls && t.calls[d] == s.calls[d])
  }

  /** Steps before and after a caller leads. */
  predicate IsCall(step: Step) {
    step.Ask? || step.Enter? || step.TakeOutcome? || step.CancelJoin?
  }

  predicate IsFetch(step: Step) {
    step.FetchFail? || step.FetchOk? || step.SetBaseline?
  }

  predicate IsEval(step: Step) {
    step.CheckMemo? || step.EvalFail? || step.EvalOk? || step.SetMemo?
  }

  predicate IsFinish(step: Step) {
    step.Publish? || step.Clear? || step.Close?
  }

  lemma {:induction false} StepGrows(s: State, step: Step)
    requires Inv(s) && Enabled(s, step) && Of(step).Some?
    ensures Grows(s, Next(s, step), Of(step).value)
  {
    hide Inv, Enabled, Next, Grows, Done;
    DoneGrows(s, step);
    if IsCall(step) {
      CallGrows(s, step);
    } else {
      LeaderGrows(s, step);
    }
  }

  lemma {:induction false} CallGrows(s: State, step: Step)
    requires Inv(s) && Enabled(s, step) && IsCall(step) && Done(s) <= Done(Next(s, step))
    ensures Grows(s, Next(s, step), step.c)
  {
    hide CallOk, FlightOk, Done;
  }

  lemma {:induction false} LeaderGrows(s: State, step: Step)
    requires Inv(s) && Enabled(s, step) && Of(step).Some? && !IsCall(step) && Done(s) <= Done(Next(s, step))
    ensures Grows(s, Next(s, step), step.c)
  {
    hide StageOk, OutcomeOk, FlightOk, Done;
    assert CallOk(s, step.c);
    if IsFinish(step) || IsFetch(step) {
      assert FlightOf(s, step.c) < |s.flights| && s.flights[FlightOf(s, step.c)].leader == step.c;
    }
  }

  lemma {:induction false} DoneGrows(s: State, step: Step)
    requires Inv(s) && Enabled(s, step) && Of(step).Some?
    ensures Done(s) <= Done(Next(s, step))
  {
    hide StageOk, OutcomeOk, FlightOk;
    if IsCall(step) {
      CallNotPending(s, step);
    } else if IsFetch(step) {
      FetchPending(s, step);
    } else {
      assert CallOk(s, step.c);
    }
  }

  /** A step that is not a leader's leaves a fetch pending that was. */
  lemma {:induction false} CallNotPending(s: State, step: Step)
    requires Enabled(s, step) && IsCall(step)
    ensures Done(s) <= Done(Next(s, step))
  {
  }

  /** A fetch comes back, then is recorded. */
  lemma {:induction false} FetchPending(s: State, step: Step)
    requires Inv(s) && Enabled(s, step) && IsFetch(step)
    ensures Done(Next(s, step)) == Done(s) + if step.FetchOk? then 1 else 0
    ensures s.flight == Some(FlightOf(s, step.c)) && Next(s, step).flight == s.flight
    ensures Pending(s) <==> step.SetBaseline?
    ensures Pending(Next(s, step)) <==> step.FetchOk?
  {
    hide StageOk, OutcomeOk, FlightOk;
    assert CallOk(s, step.c);
  }

  lemma OutcomeStays(s: State, t: State, at: Option<nat>, o: Outcome)
    requires OutcomeOk(s, at, o)
    requires t.selfCheck == s.selfCheck && s.fetches <= t.fetches && s.evaluated <= t.evaluated
    ensures OutcomeOk(t, at, o)
  {
  }

  /** A step of one caller leaves every other caller's facts standing. */
  lemma OthersStay(s: State, t: State, c: Caller, d: Caller)
    requires Inv(s) && Grows(s, t, c) && d in s.calls && d != c
    ensures CallOk(t, d)
  {
    assert CallOk(s, d);
  }

  lemma {:induction false} OwnStays(s: State, step: Step)
    requires Inv(s) && Enabled(s, step) && Of(step).Some? && Grows(s, Next(s, step), Of(step).value)
    ensures Of(step).value in Next(s, step).calls && CallOk(Next(s, step), Of(step).value)
  {
    hide Inv, Enabled, Next, CallOk, Grows;
    if IsCall(step) {
      CallerStays(s, step);
    } else if IsFetch(step) {
      FetcherStays(s, step);
    } else if IsEval(step) {
      EvaluatorStays(s, step);
    } else {
      FinisherStays(s, step);
    }
  }

  lemma {:induction false} CallerStays(s: State, step: Step)
    requires Inv(s) && Enabled(s, step) && IsCall(step) && Grows(s, Next(s, step), step.c)
    ensures step.c in Next(s, step).calls && CallOk(Next(s, step), step.c)
  {
    hide OutcomeOk;
    var c := step.c;
    if c in s.calls {
      assert CallOk(s, c);
      if s.calls[c].progress.Joined? {
        assert FlightOk(s, s.calls[c].progress.flight);
      }
      if s.flight.Some? {
        assert FlightOk(s, s.flight.value);
      }
    }
  }

  lemma {:induction false} FetcherStays(s: State, step: Step)
    requires Inv(s) && Enabled(s, step) && IsFetch(step) && Grows(s, Next(s, step), step.c)
    ensures step.c in Next(s, step).calls && CallOk(Next(s, step), step.c)
  {
    hide Done, FlightOk;
    assert CallOk(s, step.c);
  }

  lemma {:induction false} EvaluatorStays(s: State, step: Step)
    requires Inv(s) && Enabled(s, step) && IsEval(step) && Grows(s, Next(s, step), step.c)
    ensures step.c in Next(s, step).calls && CallOk(Next(s, step), step.c)
  {
    hide Done, MovedAt, FlightOk;
    assert CallOk(s, step.c);
  }

  lemma {:induction false} FinisherStays(s: State, step: Step)
    requires Inv(s) && Enabled(s, step) && IsFinish(step) && Grows(s, Next(s, step), step.c)
    ensures step.c in Next(s, step).calls && CallOk(Next(s, step), step.c)
  {
    hide Done, OutcomeOk;
    assert CallOk(s, step.c);
    assert FlightOk(s, FlightOf(s, step.c));
  }

  lemma OtherFlightStays(s: State, t: State, c: Caller, f: FlightId)
    requires Inv(s) && Grows(s, t, c) && f < |s.flights| && s.flights[f].leader != c
    ensures FlightOk(t, f)
  {
    assert FlightOk(s, f);
    if s.flights[f].outcome.Some? {
      OutcomeStays(s, t, s.flights[f].fetchedAt, s.flights[f].outcome.value);
    }
  }

  lemma OwnFlightStays(s: State, step: Step, f: FlightId)
    requires Inv(s) && Enabled(s, step) && Of(step).Some? && f < |Next(s, step).flights|
    requires Next(s, step).flights[f].leader == Of(step).value
    ensures FlightOk(Next(s, step), f)
  {
    StepGrows(s, step);
    OwnFlightOutcome(s, step, f);
    OwnFlightDone(s, step, f);
    hide Next, OutcomeOk, CallOk, Inv;
  }

  lemma OwnFlightOutcome(s: State, step: Step, f: FlightId)
    requires Inv(s) && Enabled(s, step) && Of(step).Some? && f < |Next(s, step).flights|
    requires Grows(s, Next(s, step), Of(step).value)
    ensures var flight := Next(s, step).flights[f];
      flight.outcome.Some? ==> OutcomeOk(Next(s, step), flight.fetchedAt, flight.outcome.value)
  {
    hide OutcomeOk, TipAt;
    var t := Next(s, step);
    if f < |s.flights| && s.flights[f].outcome.Some? {
      assert FlightOk(s, f);
      OutcomeStays(s, t, s.flights[f].fetchedAt, s.flights[f].outcome.value);
    } else if step.Publish? {
      assert CallOk(s, step.c);
      OutcomeStays(s, t, s.flights[FlightOf(s, step.c)].fetchedAt, StageOf(s, step.c).value.outcome);
    }
  }

  lemma OwnFlightDone(s: State, step: Step, f: FlightId)
    requires Inv(s) && Enabled(s, step) && Of(step).Some? && f < |Next(s, step).flights|
    requires Next(s, step).flights[f].leader == Of(step).value
    ensures var t := Next(s, step);
      && (t.flights[f].done ==> t.flights[f].outcome.Some?)
      && (t.flights[f].fetchedAt.Some? ==> t.flights[f].fetchedAt.value < |t.fetches|)
      && t.flights[f].leader in t.calls
      && !t.calls[t.flights[f].leader].progress.Calling?
  {
    hide OutcomeOk;
    var c := Of(step).value;
    if c in s.calls {
      assert CallOk(s, c);
    }
    if f < |s.flights| {
      assert FlightOk(s, f);
    }
  }

  lemma StepKeepsInv(s: State, step: Step)
    requires Inv(s) && Enabled(s, step)
    ensures Inv(Next(s, step))
  {
    var t := Next(s, step);
    if step.Prebuild? {
      PrebuildKeepsInv(s, step);
    } else {
      var c := Of(step).value;
      StepGrows(s, step);
      OwnStays(s, step);
      forall d | d in t.calls ensures CallOk(t, d) {
        if d != c {
          OnlyOwnCall(s, step, d);
          OthersStay(s, t, c, d);
        }
      }
      forall f | 0 <= f < |t.flights| ensures FlightOk(t, f) {
        if f < |s.flights| && s.flights[f].leader != c {
          OtherFlightStays(s, t, c, f);
        } else {
          NewFlightIsOwn(s, step, f);
          OwnFlightStays(s, step, f);
        }
      }
      MemoStays(s, step);
      LedStays(s, step);
    }
  }

  lemma NewFlightIsOwn(s: State, step: Step, f: FlightId)
    requires Enabled(s, step) && Of(step).Some? && f < |Next(s, step).flights|
    requires f >= |s.flights| || s.flights[f].leader == Of(step).value
    ensures Next(s, step).flights[f].leader == Of(step).value
  {
  }

  lemma OnlyOwnCall(s: State, step: Step, d: Caller)
    requires Enabled(s, step) && Of(step).Some? && d != Of(step).value && d in Next(s, step).calls
    ensures d in s.calls
  {
  }

  lemma MemoStays(s: State, step: Step)
    requires Inv(s) && Enabled(s, step) && Of(step).Some?
    ensures var t := Next(s, step); t.memo.Some? ==> t.memo.value in t.evaluated
  {
    if Of(step).value in s.calls {
      assert CallOk(s, Of(step).value);
    }
  }

  lemma {:induction false} LedStays(s: State, step: Step)
    requires Inv(s) && Enabled(s, step) && Of(step).Some?
    ensures RegisteredLed(Next(s, step))
  {
    hide FlightOk, StageOk, Done;
    if !IsCall(step) {
      assert CallOk(s, step.c);
    }
  }

  lemma PrebuildKeepsInv(s: State, step: Step)
    requires Inv(s) && step.Prebuild?
    ensures Inv(Next(s, step))
  {
    var t := Next(s, step);
    forall c | c in t.calls ensures CallOk(t, c) {
      assert CallOk(s, c);
    }
    forall f | 0 <= f < |t.flights| ensures FlightOk(t, f) {
      assert FlightOk(s, f);
    }
  }

  lemma {:induction false} RunKeepsInv(selfCheck: bool, steps: seq<Step>)
    ensures Inv(Run(selfCheck, steps)) && Run(selfCheck, steps).selfCheck == selfCheck
  {
    hide Inv, Next, Enabled;
    if steps == [] {
      FreshInv(selfCheck);
    } else {
      RunKeepsInv(selfCheck, steps[..|steps| - 1]);
      var s, step := Run(selfCheck, steps[..|steps| - 1]), steps[|steps| - 1];
      if Enabled(s, step) {
        StepKeepsInv(s, step);
        SameCheck(s, step);
      }
    }
  }

  lemma FreshInv(selfCheck: bool)
    ensures Inv(Fresh(selfCheck))
  {
  }

  lemma SameCheck(s: State, step: Step)
    requires Enabled(s, step)
    ensures Next(s, step).selfCheck == s.selfCheck
  {
  }

  /** In every reachable state at most one caller is inside resolveTipOnce, and it
      is the one whose flight is registered. */
  lemma SingleFlight(selfCheck: bool, steps: seq<Step>, c: Caller, d: Caller)
    requires var s := Run(selfCheck, steps);
      && StageOf(s, c).Some? && InsideResolve(StageOf(s, c).value)
      && StageOf(s, d).Some? && InsideResolve(StageOf(s, d).value)
    ensures c == d && Run(selfCheck, steps).flight == Some(FlightOf(Run(selfCheck, steps), c))
  {
    var s := Run(selfCheck, steps);
    RunKeepsInv(selfCheck, steps);
    hide Run;
    assert CallOk(s, c) && CallOk(s, d);
  }

  /** What a returned call handed back is its flight's own outcome: the revision of
      one fetch, Moved exactly when the fetch before it yielded another, and the
      path evaluated at that revision. */
  lemma ReturnedOutcomeIsExact(selfCheck: bool, steps: seq<Step>, c: Caller)
    requires var s := Run(selfCheck, steps); c in s.calls && s.calls[c].progress.Returned?
    ensures var s := Run(selfCheck, steps); var p := s.calls[c].progress;
      && p.flight < |s.flights| && s.flights[p.flight].done && s.flights[p.flight].outcome == Some(p.outcome)
      && OutcomeOk(s, s.flights[p.flight].fetchedAt, p.outcome)
  {
    var s := Run(selfCheck, steps);
    RunKeepsInv(selfCheck, steps);
    hide Run;
    assert CallOk(s, c);
    assert FlightOk(s, s.calls[c].progress.flight);
  }

  predicate InProgress(s: State, c: Caller, f: FlightId) {
    c in s.calls && s.flight == Some(f)
    && (s.calls[c].progress == Joined(f) || (s.calls[c].progress.Leading? && s.calls[c].progress.flight == f))
  }

  /** The call is attached to flight `f`, or has returned its outcome. */
  predicate Attached(s: State, c: Caller, f: FlightId) {
    c in s.calls && match s.calls[c].progress
    case Joined(g) => g == f
    case Leading(g, _) => g == f
    case Returned(g, _) => g == f
    case _ => false
  }

  lemma {:induction false} AttachedBy(s: State, step: Step, c: Caller, f: FlightId)
    requires Inv(s) && Enabled(s, step) && Attached(Next(s, step), c, f)
    ensures Attached(s, c, f) || InProgress(Next(s, step), c, f)
  {
    hide Inv;
    if !Attached(s, c, f) {
      if step.Enter? && step.c == c {
        EnterAttaches(s, c, f);
      } else if step.Enter? || step.Ask? {
      } else {
        AttachedStays(s, step, c, f);
      }
    }
  }

  lemma EnterAttaches(s: State, c: Caller, f: FlightId)
    requires Enabled(s, Enter(c)) && Attached(Next(s, Enter(c)), c, f)
    ensures InProgress(Next(s, Enter(c)), c, f)
  {
  }

  /** Only entering attaches a call to a flight. */
  lemma {:induction false} AttachedStays(s: State, step: Step, c: Caller, f: FlightId)
    requires Enabled(s, step) && Attached(Next(s, step), c, f)
    requires !step.Enter? && !step.Ask?
    ensures Attached(s, c, f)
  {
  }

  /** Every call that returns an outcome was attached to that flight at a moment of
      the call when the flight was the registered one. */
  lemma {:induction false} ReturnedFlightWasRegistered(selfCheck: bool, steps: seq<Step>, c: Caller, f: FlightId)
    requires Attached(Run(selfCheck, steps), c, f)
    ensures exists k :: 0 <= k <= |steps| && InProgress(Run(selfCheck, steps[..k]), c, f)
  {
    hide Next, Enabled, Inv, InProgress;
    assert steps[..|steps|] == steps;
    if steps != [] {
      var n := |steps| - 1;
      var s := Run(selfCheck, steps[..n]);
      RunKeepsInv(selfCheck, steps[..n]);
      if Enabled(s, steps[n]) {
        AttachedBy(s, steps[n], c, f);
      }
      if Attached(s, c, f) {
        ReturnedFlightWasRegistered(selfCheck, steps[..n], c, f);
        var k :| 0 <= k <= n && InProgress(Run(selfCheck, steps[..n][..k]), c, f);
        assert steps[..n][..k] == steps[..k];
      } else {
        assert InProgress(Run(selfCheck, steps[..|steps|]), c, f);
      }
    } else {
      assert false;
    }
  }

  /** A leader is never handed a revision fetched before it asked. */
  lemma LeaderGetsAFreshFetch(selfCheck: bool, steps: seq<Step>, c: Caller)
    requires var s := Run(selfCheck, steps); c in s.calls && s.calls[c].progress.Returned?
    requires var s := Run(selfCheck, steps);
      s.calls[c].progress.flight < |s.flights| && s.flights[s.calls[c].progress.flight].leader == c
    ensures var s := Run(selfCheck, steps); var at := s.flights[s.calls[c].progress.flight].fetchedAt;
      at.Some? ==> s.calls[c].asked <= at.value
  {
    var s := Run(selfCheck, steps);
    RunKeepsInv(selfCheck, steps);
    hide Run;
    assert CallOk(s, c);
    var f := s.calls[c].progress.flight;
    assert FlightOk(s, f);
  }

  /** The daemon an in-place restart may switch to, if any; `validPath` is the
      clean-store-path check. */
  function ExecTarget(s: State, validPath: Path -> bool): (r: Option<Tip>)
    ensures r.Some? ==> r == s.prebuilt
    ensures r.Some? <==>
            && s.prebuilt.Some? && s.prebuilt.value.selfPath != "" && validPath(s.prebuilt.value.selfPath)
            && s.fetches != [] && s.memo == Some((s.fetches[|s.fetches| - 1], s.prebuilt.value.selfPath))
  {
    if s.prebuilt.None? || s.prebuilt.value.selfPath == "" then None
    else if !validPath(s.prebuilt.value.selfPath) then None
    else if s.memo.None? || s.fetches == [] || s.memo.value.0 != s.fetches[|s.fetches| - 1] then None
    else if s.memo.value.1 != s.prebuilt.value.selfPath then None
    else s.prebuilt
  }

  /** In every reachable state the target is the prebuilt daemon, and its path is
      one evaluated at the revision the latest fetch yielded. */
  lemma ExecTargetIsLatest(selfCheck: bool, steps: seq<Step>, validPath: Path -> bool)
    ensures var s := Run(selfCheck, steps); var r := ExecTarget(s, validPath);
      r.Some? ==> |s.fetches| > 0 && (s.fetches[|s.fetches| - 1], r.value.selfPath) in s.evaluated
  {
    RunKeepsInv(selfCheck, steps);
  }

  /** The prebuilt daemon is the one prebuilt last. */
  lemma {:induction false} PrebuiltIsLast(selfCheck: bool, steps: seq<Step>, tip: Tip, later: seq<Step>)
    requires forall i :: 0 <= i < |later| ==> !later[i].Prebuild?
    ensures Run(selfCheck, steps + [Prebuild(tip)] + later).prebuilt == Some(tip)
  {
    var all := steps + [Prebuild(tip)] + later;
    if later == [] {
      assert all == steps + [Prebuild(tip)] && all[..|all| - 1] == steps;
    } else {
      var n := |later| - 1;
      assert all[..|all| - 1] == steps + [Prebuild(tip)] + later[..n];
      PrebuiltIsLast(selfCheck, steps, tip, later[..n]);
    }
  }

  function After(s: State, steps: seq<Step>): State
    decreases |steps|
  {
    if steps == [] then s
    else After(if Enabled(s, steps[0]) then Next(s, steps[0]) else s, steps[1..])
  }

  /** A caller that joins, unlike one that leads, can be handed a revision fetched
      before it asked: whenever the registered flight's fetch is already done. */
  lemma JoinerCanGetAnEarlierFetch(s: State, c: Caller, d: Caller, tip: Tip)
    requires Inv(s) && StageOf(s, c) == Some(Decided(Resolved(tip))) && d !in s.calls
    ensures var t := After(After(s, [Ask(d), Enter(d)]), [Publish(c), Clear(c), Close(c), TakeOutcome(d)]);
      var f := FlightOf(s, c);
      && d in t.calls && t.calls[d].progress == Returned(f, Resolved(tip))
      && f < |t.flights| && t.flights[f].fetchedAt.Some?
      && t.flights[f].fetchedAt.value < t.calls[d].asked
  {
    assert CallOk(s, c);
    JoinsLate(s, c, d);
    LeaderReturns(After(s, [Ask(d), Enter(d)]), c, d, FlightOf(s, c), tip);
  }

  /** Which fetch a flight's came back as, once it has. */
  function DateOf(s: State, f: FlightId): Option<nat>
    requires f < |s.flights|
  {
    if s.flights[f].fetchedAt.Some? then s.flights[f].fetchedAt
    else if s.flight == Some(f) && Pending(s) then Some(|s.fetches|)
    else None
  }

  /** A date, once given, stays and is one of the fetches that have come back; one
      given later is later. */
  ghost predicate Dates(s: State, t: State, f: FlightId) {
    && Done(s) <= Done(t) && |s.flights| <= |t.flights|
    && (f < |s.flights| && DateOf(s, f).Some? ==> DateOf(t, f) == DateOf(s, f) && DateOf(s, f).value < Done(s))
    && (f < |t.flights| && (f < |s.flights| ==> DateOf(s, f).None?) && DateOf(t, f).Some? ==>
          Done(s) <= DateOf(t, f).value)
  }

  lemma {:induction false} DatesNow(s: State, f: FlightId)
    requires Inv(s)
    ensures Dates(s, s, f)
  {
    if f < |s.flights| {
      assert FlightOk(s, f);
    }
  }

  lemma {:induction false} StepDates(s: State, step: Step, f: FlightId)
    requires Inv(s) && Enabled(s, step)
    ensures Dates(s, Next(s, step), f)
  {
    DatesNow(s, f);
    if Of(step).Some? {
      DoneGrows(s, step);
      if IsFetch(step) {
        FetchDates(s, step, f);
      } else {
        OtherDates(s, step, f);
      }
    }
  }

  lemma {:induction false} FetchDates(s: State, step: Step, f: FlightId)
    requires Inv(s) && Enabled(s, step) && IsFetch(step) && Dates(s, s, f)
    ensures Dates(s, Next(s, step), f)
  {
    FetchPending(s, step);
    assert CallOk(s, step.c);
    hide Pending, CallOk, FlightOk, Inv;
  }

  lemma {:induction false} OtherDates(s: State, step: Step, f: FlightId)
    requires Inv(s) && Enabled(s, step) && Of(step).Some? && !IsFetch(step) && Dates(s, s, f)
    requires Done(s) <= Done(Next(s, step))
    ensures Dates(s, Next(s, step), f)
  {
    hide FlightOk, StageOk;
    if !IsCall(step) {
      assert CallOk(s, step.c);
    }
  }

  lemma DatesTransitive(s: State, t: State, u: State, f: FlightId)
    requires Dates(s, t, f) && Dates(t, u, f)
    ensures Dates(s, u, f)
  {
    hide Done, DateOf;
  }

  /** Over any run from a reachable state: the dates of the fetches, and the moment a
      call began. */
  lemma {:induction false} RunDates(s: State, steps: seq<Step>, c: Caller, f: FlightId)
    requires Inv(s) && c in s.calls
    ensures Dates(s, After(s, steps), f)
    ensures Inv(After(s, steps)) && c in After(s, steps).calls && After(s, steps).calls[c].asked == s.calls[c].asked
    decreases |steps|
  {
    hide Inv, Enabled, Next, Dates;
    if steps == [] {
      DatesNow(s, f);
    } else if Enabled(s, steps[0]) {
      var t := Next(s, steps[0]);
      StepKeepsInv(s, steps[0]);
      StepDates(s, steps[0], f);
      AskedOnce(s, steps[0], c);
      RunDates(t, steps[1..], c, f);
      DatesTransitive(s, t, After(t, steps[1..]), f);
    } else {
      RunDates(s, steps[1..], c, f);
    }
  }

  lemma AskedOnce(s: State, step: Step, c: Caller)
    requires Enabled(s, step) && c in s.calls
    ensures c in Next(s, step).calls && Next(s, step).calls[c].asked == s.calls[c].asked
  {
  }

  /** A flight that exists and is not registered is not joined any more. */
  lemma {:induction false} NeverJoined(s: State, steps: seq<Step>, c: Caller, f: FlightId)
    requires Inv(s) && f < |s.flights| && s.flight != Some(f) && !Attached(s, c, f)
    ensures !Attached(After(s, steps), c, f)
    decreases |steps|
  {
    hide Inv, Enabled, Next, Attached, InProgress;
    if steps != [] {
      if Enabled(s, steps[0]) {
        var t := Next(s, steps[0]);
        StepKeepsInv(s, steps[0]);
        StaysUnregistered(s, steps[0], c, f);
        if Attached(t, c, f) {
          AttachedBy(s, steps[0], c, f);
        }
        NeverJoined(t, steps[1..], c, f);
      } else {
        NeverJoined(s, steps[1..], c, f);
      }
    }
  }

  lemma StaysUnregistered(s: State, step: Step, c: Caller, f: FlightId)
    requires Enabled(s, step) && f < |s.flights| && s.flight != Some(f)
    ensures var t := Next(s, step); f < |t.flights| && t.flight != Some(f) && !InProgress(t, c, f)
  {
  }

  /** No call is handed a revision older than the moment it asked, with one exact
      exception: a call is handed an earlier fetch if and only if it gets the outcome
      of a flight whose fetch had come back before it asked. */
  lemma {:induction false} ReturnedFetchIsFreshIff(s: State, c: Caller, steps: seq<Step>)
    requires Inv(s) && Enabled(s, Ask(c))
    requires var t := After(Next(s, Ask(c)), steps); c in t.calls && t.calls[c].progress.Returned?
    ensures var t := After(Next(s, Ask(c)), steps); var f := t.calls[c].progress.flight;
      && f < |t.flights|
      && (t.flights[f].fetchedAt.Some? ==>
            (t.calls[c].asked <= t.flights[f].fetchedAt.value <==> !(f < |s.flights| && DateOf(s, f).Some?)))
      && (f < |s.flights| ==> s.flight == Some(f) && !s.flights[f].done)
      && (t.flights[f].fetchedAt.Some? && t.calls[c].asked > t.flights[f].fetchedAt.value ==>
            s.flight == Some(f) && f < |s.flights| && DateOf(s, f).Some?)
  {
    var s1 := Next(s, Ask(c));
    StepKeepsInv(s, Ask(c));
    var t := After(s1, steps);
    RunDates(s1, steps, c, 0);
    assert CallOk(t, c);
    var f := t.calls[c].progress.flight;
    RunDates(s1, steps, c, f);
    if f < |s.flights| {
      RegisteredIsOpen(s);
      if s.flight != Some(f) {
        NeverJoined(s1, steps, c, f);
      }
    }
  }

  lemma RegisteredIsOpen(s: State)
    requires Inv(s)
    ensures s.flight.Some? ==> s.flight.value < |s.flights| && !s.flights[s.flight.value].done
    ensures s.flight.Some? ==> StageOf(s, s.flights[s.flight.value].leader).Some?
  {
    if s.flight.Some? {
      assert CallOk(s, s.flights[s.flight.value].leader);
    }
  }

  /** The registration is gone before done is closed: a registered flight is still
      led, and neither a closed one nor one about to be is registered. */
  lemma DoneIsNotRegistered(selfCheck: bool, steps: seq<Step>)
    ensures var s := Run(selfCheck, steps);
      && (s.flight.Some? ==> s.flight.value < |s.flights| && StageOf(s, s.flights[s.flight.value].leader).Some?)
      && (forall f :: 0 <= f < |s.flights| && s.flights[f].done ==> s.flight != Some(f))
      && (forall c :: StageOf(s, c).Some? && StageOf(s, c).value.Closing? ==> s.flight != Some(FlightOf(s, c)))
  {
    var s := Run(selfCheck, steps);
    RunKeepsInv(selfCheck, steps);
    hide Run;
    RegisteredIsOpen(s);
    forall c | StageOf(s, c).Some? && StageOf(s, c).value.Closing? ensures s.flight != Some(FlightOf(s, c)) {
      assert CallOk(s, c);
    }
  }

  /** A call that asks once a flight is done never joins it and never gets its
      outcome, whatever happens afterwards. */
  lemma {:induction false} AskedOnceDone(selfCheck: bool, steps: seq<Step>, c: Caller, f: FlightId, later: seq<Step>)
    requires var s := Run(selfCheck, steps); f < |s.flights| && s.flights[f].done && Enabled(s, Ask(c))
    ensures !Attached(After(Next(Run(selfCheck, steps), Ask(c)), later), c, f)
  {
    var s := Run(selfCheck, steps);
    RunKeepsInv(selfCheck, steps);
    DoneIsNotRegistered(selfCheck, steps);
    hide Run, Inv;
    StepKeepsInv(s, Ask(c));
    NeverJoined(Next(s, Ask(c)), later, c, f);
  }

  /** A call that comes in while no flight is registered leads a new one, and what
      it returns is that flight's outcome, whose fetch came back after it came in. */
  lemma {:induction false} EntersAfresh(selfCheck: bool, steps: seq<Step>, c: Caller, later: seq<Step>)
    requires var s := Run(selfCheck, steps); s.flight.None? && At(s, c) == Some(Calling)
    ensures var s := Run(selfCheck, steps); var t := Next(s, Enter(c)); var f := |s.flights|;
      && StageOf(t, c) == Some(Fetching) && FlightOf(t, c) == f && t.flight == Some(f)
      && var u := After(t, later);
         && c in u.calls && f < |u.flights|
         && (u.calls[c].progress.Leading? || u.calls[c].progress.Returned?) && u.calls[c].progress.flight == f
         && (u.flights[f].fetchedAt.Some? ==> |s.fetches| <= u.flights[f].fetchedAt.value)
  {
    var s, f := Run(selfCheck, steps), |Run(selfCheck, steps).flights|;
    RunKeepsInv(selfCheck, steps);
    hide Run;
    StepKeepsInv(s, Enter(c));
    var t := Next(s, Enter(c));
    RunDates(t, later, c, f);
    LeadsOn(t, later, c, f);
  }

  predicate Leads(s: State, c: Caller, f: FlightId) {
    c in s.calls && (s.calls[c].progress.Leading? || s.calls[c].progress.Returned?) && s.calls[c].progress.flight == f
  }

  lemma {:induction false} LeadsOn(s: State, steps: seq<Step>, c: Caller, f: FlightId)
    requires Leads(s, c, f)
    ensures Leads(After(s, steps), c, f)
    decreases |steps|
  {
    hide Enabled, Next, Leads;
    if steps != [] {
      if Enabled(s, steps[0]) {
        StepLeadsOn(s, steps[0], c, f);
        LeadsOn(Next(s, steps[0]), steps[1..], c, f);
      } else {
        LeadsOn(s, steps[1..], c, f);
      }
    }
  }

  lemma StepLeadsOn(s: State, step: Step, c: Caller, f: FlightId)
    requires Enabled(s, step) && Leads(s, c, f)
    ensures Leads(Next(s, step), c, f)
  {
  }

  /** How many steps a leader has before it at most, if nothing fails. */
  function Rank(g: Stage): nat {
    match g
    case Fetching => 8
    case Fetched(_) => 7
    case MemoCheck(_, _) => 6
    case Evaluating(_, _) => 5
    case Evaluated(_, _, _) => 4
    case Decided(_) => 3
    case Clearing(_) => 2
    case Closing(_) => 1
  }

  /** A step a leader can take whatever stage it is in. */
  function Onwards(g: Stage, c: Caller): Step {
    match g
    case Fetching => FetchFail(c, 0)
    case Fetched(_) => SetBaseline(c)
    case MemoCheck(_, _) => CheckMemo(c)
    case Evaluating(_, _) => EvalFail(c, 0)
    case Evaluated(_, _, _) => SetMemo(c)
    case Decided(_) => Publish(c)
    case Clearing(_) => Clear(c)
    case Closing(_) => Close(c)
  }

  lemma {:induction false} OnwardsStep(s: State, c: Caller)
    requires StageOf(s, c).Some? && FlightOf(s, c) < |s.flights|
    ensures var g, f := StageOf(s, c).value, FlightOf(s, c); var step := Onwards(g, c);
      && Enabled(s, step)
      && var t := Next(s, step);
         && (if g.Closing? then StageOf(t, c).None? && f < |t.flights| && t.flights[f].done
             else StageOf(t, c).Some? && FlightOf(t, c) == f && Rank(StageOf(t, c).value) < Rank(g))
         && (forall d :: d in s.calls && d != c ==> d in t.calls && t.calls[d] == s.calls[d])
  {
    hide Done;
  }

  lemma LeaderKnown(s: State, c: Caller)
    requires Inv(s) && StageOf(s, c).Some?
    ensures FlightOf(s, c) < |s.flights|
  {
    assert CallOk(s, c);
  }

  /** No flight is stuck: from any reachable state its leader can, by steps of its
      own, end it, and then it is not registered and everyone who joined can return. */
  lemma {:induction false} FlightCanEnd(s: State, c: Caller) returns (steps: seq<Step>)
    requires Inv(s) && StageOf(s, c).Some?
    ensures forall i :: 0 <= i < |steps| ==> Of(steps[i]) == Some(c)
    ensures var t, f := After(s, steps), FlightOf(s, c);
      && Inv(t) && f < |t.flights| && t.flights[f].done && t.flight != Some(f)
      && (forall d :: d in s.calls && s.calls[d].progress == Joined(f) ==> Enabled(t, TakeOutcome(d)))
    decreases Rank(StageOf(s, c).value)
  {
    hide Inv, Next, Enabled, Rank, After, RegisteredLed;
    var g, f := StageOf(s, c).value, FlightOf(s, c);
    var step := Onwards(g, c);
    LeaderKnown(s, c);
    OnwardsStep(s, c);
    var t := Next(s, step);
    StepKeepsInv(s, step);
    var rest: seq<Step> := [];
    if g.Closing? {
      Ended(s, t, f);
      AfterNothing(t);
    } else {
      rest := FlightCanEnd(t, c);
    }
    AfterOne(s, step, rest);
    steps := [step] + rest;
  }

  /** A call that has joined can leave at any time; that changes nothing for anyone
      else, and it gets no outcome any more. */
  lemma {:induction false} CancelledStays(s: State, c: Caller, later: seq<Step>)
    requires At(s, c).Some? && At(s, c).value.Joined?
    ensures Enabled(s, CancelJoin(c))
    ensures Next(s, CancelJoin(c)) == s.(calls := s.calls[c := s.calls[c].(progress := Cancelled)])
    ensures At(After(Next(s, CancelJoin(c)), later), c) == Some(Cancelled)
  {
    GoneStays(Next(s, CancelJoin(c)), c, later);
  }

  lemma {:induction false} GoneStays(s: State, c: Caller, later: seq<Step>)
    requires At(s, c) == Some(Cancelled)
    ensures At(After(s, later), c) == Some(Cancelled)
    decreases |later|
  {
    hide Enabled, Next, At;
    if later != [] {
      if Enabled(s, later[0]) {
        StepGoneStays(s, c, later[0]);
        GoneStays(Next(s, later[0]), c, later[1..]);
      } else {
        GoneStays(s, c, later[1..]);
      }
    }
  }

  lemma StepGoneStays(s: State, c: Caller, step: Step)
    requires At(s, c) == Some(Cancelled) && Enabled(s, step)
    ensures At(Next(s, step), c) == Some(Cancelled)
  {
  }

  lemma AfterNothing(s: State)
    ensures After(s, []) == s
  {
  }

  /** A flight that is done is not registered, and has an outcome to take. */
  lemma {:induction false} Ended(s: State, t: State, f: FlightId)
    requires Inv(t) && f < |t.flights| && t.flights[f].done
    requires forall d :: d in s.calls && s.calls[d].progress == Joined(f) ==> d in t.calls && t.calls[d] == s.calls[d]
    ensures t.flight != Some(f)
    ensures forall d :: d in s.calls && s.calls[d].progress == Joined(f) ==> Enabled(t, TakeOutcome(d))
  {
    hide StageOk, OutcomeOk;
    assert FlightOk(t, f);
    RegisteredIsOpen(t);
  }

  lemma AfterOne(s: State, step: Step, rest: seq<Step>)
    requires Enabled(s, step)
    ensures After(s, [step] + rest) == After(Next(s, step), rest)
  {
    assert ([step] + rest)[1..] == rest;
  }

  lemma JoinsLate(s: State, c: Caller, d: Caller)
    requires StageOf(s, c).Some? && d !in s.calls && s.flight == Some(FlightOf(s, c))
    ensures var t := After(s, [Ask(d), Enter(d)]);
      && t == s.(calls := s.calls[d := Call(Done(s), Joined(FlightOf(s, c)))])
      && StageOf(t, c) == StageOf(s, c) && FlightOf(t, c) == FlightOf(s, c)
  {
    var s1 := Next(s, Ask(d));
    assert [Ask(d), Enter(d)] == [Ask(d)] + [Enter(d)];
    AfterOne(s, Ask(d), [Enter(d)]);
    assert [Enter(d)] == [Enter(d)] + [];
    AfterOne(s1, Enter(d), []);
    assert After(Next(s1, Enter(d)), []) == Next(s1, Enter(d));
  }

  lemma {:induction false} LeaderReturns(s: State, c: Caller, d: Caller, f: FlightId, tip: Tip)
    requires StageOf(s, c) == Some(Decided(Resolved(tip))) && FlightOf(s, c) == f < |s.flights|
    requires At(s, d) == Some(Joined(f)) && !s.flights[f].done
    ensures var t := After(s, [Publish(c), Clear(c), Close(c), TakeOutcome(d)]);
      && d in t.calls && t.calls[d] == s.calls[d].(progress := Returned(f, Resolved(tip)))
      && f < |t.flights| && t.flights[f].fetchedAt == s.flights[f].fetchedAt
  {
    hide After;
    var s3 := Published(s, c, f, Resolved(tip));
    assert At(s3, d) == At(s, d);
    var s4 := Next(s3, TakeOutcome(d));
    assert s4.calls[d] == s.calls[d].(progress := Returned(f, Resolved(tip)));
    Chain(s, Publish(c), Clear(c), Close(c), TakeOutcome(d));
  }

  /** A leader that has decided publishes, clears the registration and closes done. */
  lemma {:induction false} Published(s: State, c: Caller, f: FlightId, o: Outcome) returns (t: State)
    requires StageOf(s, c) == Some(Decided(o)) && FlightOf(s, c) == f < |s.flights|
    ensures Enabled(s, Publish(c)) && Enabled(Next(s, Publish(c)), Clear(c))
    ensures Enabled(Next(Next(s, Publish(c)), Clear(c)), Close(c))
    ensures t == Next(Next(Next(s, Publish(c)), Clear(c)), Close(c))
    ensures |t.flights| == |s.flights| && t.flights[f] == s.flights[f].(outcome := Some(o), done := true)
    ensures forall d :: d in s.calls && d != c ==> d in t.calls && t.calls[d] == s.calls[d]
  {
    var s1 := Next(s, Publish(c));
    var s2 := Next(s1, Clear(c));
    t := Next(s2, Close(c));
  }

  lemma Chain(s: State, a: Step, b: Step, c: Step, d: Step)
    requires Enabled(s, a) && Enabled(Next(s, a), b) && Enabled(Next(Next(s, a), b), c)
    requires Enabled(Next(Next(Next(s, a), b), c), d)
    ensures After(s, [a, b, c, d]) == Next(Next(Next(Next(s, a), b), c), d)
  {
    hide Next, Enabled;
    assert [a, b, c, d] == [a] + [b, c, d] && [b, c, d] == [b] + [c, d] && [c, d] == [c] + [d] && [d] == [d] + [];
    AfterOne(s, a, [b, c, d]);
    AfterOne(Next(s, a), b, [c, d]);
    AfterOne(Next(Next(s, a), b), c, [d]);
    AfterOne(Next(Next(Next(s, a), b), c), d, []);
  }
}
