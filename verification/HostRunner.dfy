/** The fields one leader updates while it resolves the tip, with every other caller
    running between its steps (cmd/launcher/daemon/runner.go). */
module HostRunners {
  import opened Options
  import opened TipFlight

  /** Caller `c` is inside resolveTipOnce. */
  predicate Resolving(s: State, c: Caller) {
    StageOf(s, c).Some? && InsideResolve(StageOf(s, c).value)
  }

  /** What a leader relies on while others run. */
  ghost predicate Undisturbed(s: State, t: State, c: Caller) {
    && Inv(t) && c in s.calls && c in t.calls && t.calls[c] == s.calls[c] && t.selfCheck == s.selfCheck
    && t.fetches == s.fetches && t.memo == s.memo && t.evaluated == s.evaluated && |t.flights| >= |s.flights|
  }

  lemma {:induction false} OtherStep(s: State, step: Step, c: Caller)
    requires Inv(s) && Enabled(s, step) && Of(step) != Some(c) && Resolving(s, c)
    ensures Undisturbed(s, Next(s, step), c)
  {
    hide StageOk, OutcomeOk, FlightOk;
    StepKeepsInv(s, step);
    if Of(step).Some? && !IsCall(step) {
      NotResolving(s, c, step.c);
      OtherLeaderStep(s, step, c);
    } else {
      hide Inv, Resolving;
    }
  }

  /** No other caller is inside resolveTipOnce. */
  lemma {:induction false} NotResolving(s: State, c: Caller, d: Caller)
    requires Inv(s) && Resolving(s, c) && d != c
    ensures !Resolving(s, d)
  {
    hide StageOk, FlightOk;
    assert CallOk(s, c);
    if d in s.calls {
      assert CallOk(s, d);
    }
  }

  lemma {:induction false} OtherLeaderStep(s: State, step: Step, c: Caller)
    requires Enabled(s, step) && Inv(Next(s, step)) && Of(step).Some? && step.c != c && c in s.calls
    requires !IsCall(step) && !Resolving(s, step.c)
    ensures Undisturbed(s, Next(s, step), c)
  {
    hide Inv;
  }

  /** No step of any other caller touches the baseline or the memo, or the leader's
      own progress, while a leader is inside resolveTipOnce. */
  lemma {:induction false} OthersLeaveTheLeader(s: State, steps: seq<Step>, c: Caller)
    requires Inv(s) && Resolving(s, c)
    requires forall i :: 0 <= i < |steps| ==> Of(steps[i]) != Some(c)
    ensures Undisturbed(s, After(s, steps), c)
    decreases |steps|
  {
    hide Inv, Enabled, Next, InsideResolve;
    if steps != [] {
      if Enabled(s, steps[0]) {
        OtherStep(s, steps[0], c);
        OthersLeaveTheLeader(Next(s, steps[0]), steps[1..], c);
      } else {
        OthersLeaveTheLeader(s, steps[1..], c);
      }
    }
  }

  function Last(fetches: seq<Revision>): Option<Revision> {
    if fetches == [] then None else Some(fetches[|fetches| - 1])
  }

  /** A leader's step: the machine's invariant, where the leader goes, and what the
      step does to the baseline and the memo. */
  lemma {:induction false} LeaderStep(s: State, step: Step, c: Caller)
    requires Inv(s) && Of(step) == Some(c) && Resolving(s, c) && Enabled(s, step)
    requires !step.Publish?
    ensures var t, g := Next(s, step), StageOf(s, c).value;
      && Inv(t) && t.selfCheck == s.selfCheck && Resolving(t, c)
      && t.memo == (if step.SetMemo? then Some((g.revision, g.path)) else s.memo)
      && Last(t.fetches) == (if step.SetBaseline? then Some(g.revision) else Last(s.fetches))
      && (step.FetchFail? ==> StageOf(t, c) == Some(Decided(FetchFailed(step.error))))
      && (step.FetchOk? ==> StageOf(t, c) == Some(Fetched(step.revision)))
      && (step.SetBaseline? ==>
            var moved := Last(s.fetches).Some? && Last(s.fetches).value != g.revision;
            StageOf(t, c) == Some(if s.selfCheck then MemoCheck(g.revision, moved)
                                  else Decided(Resolved(Tip(g.revision, "", moved)))))
      && (step.CheckMemo? ==>
            StageOf(t, c) == Some(if s.memo.Some? && s.memo.value.0 == g.revision
                                  then Decided(Resolved(Tip(g.revision, s.memo.value.1, g.moved)))
                                  else Evaluating(g.revision, g.moved)))
      && (step.EvalFail? ==> StageOf(t, c) == Some(Decided(EvalFailed(Tip(g.revision, "", g.moved), step.error))))
      && (step.EvalOk? ==> StageOf(t, c) == Some(Evaluated(g.revision, g.moved, step.path)))
      && (step.SetMemo? ==> StageOf(t, c) == Some(Decided(Resolved(Tip(g.revision, g.path, g.moved)))))
  {
    hide Inv;
    StepKeepsInv(s, step);
    if IsFetch(step) {
      FetchStep(s, step, c);
    } else {
      EvalStep(s, step, c);
    }
  }

  lemma {:induction false} FetchStep(s: State, step: Step, c: Caller)
    requires IsFetch(step) && step.c == c && Enabled(s, step)
    ensures var t, g := Next(s, step), StageOf(s, c).value;
      && t.selfCheck == s.selfCheck && Resolving(t, c) && t.memo == s.memo
      && Last(t.fetches) == (if step.SetBaseline? then Some(g.revision) else Last(s.fetches))
      && (step.FetchFail? ==> StageOf(t, c) == Some(Decided(FetchFailed(step.error))))
      && (step.FetchOk? ==> StageOf(t, c) == Some(Fetched(step.revision)))
      && (step.SetBaseline? ==>
            var moved := Last(s.fetches).Some? && Last(s.fetches).value != g.revision;
            StageOf(t, c) == Some(if s.selfCheck then MemoCheck(g.revision, moved)
                                  else Decided(Resolved(Tip(g.revision, "", moved)))))
  {
  }

  lemma {:induction false} EvalStep(s: State, step: Step, c: Caller)
    requires IsEval(step) && step.c == c && Enabled(s, step)
    ensures var t, g := Next(s, step), StageOf(s, c).value;
      && t.selfCheck == s.selfCheck && Resolving(t, c) && t.fetches == s.fetches
      && t.memo == (if step.SetMemo? then Some((g.revision, g.path)) else s.memo)
      && (step.CheckMemo? ==>
            StageOf(t, c) == Some(if s.memo.Some? && s.memo.value.0 == g.revision
                                  then Decided(Resolved(Tip(g.revision, s.memo.value.1, g.moved)))
                                  else Evaluating(g.revision, g.moved)))
      && (step.EvalFail? ==> StageOf(t, c) == Some(Decided(EvalFailed(Tip(g.revision, "", g.moved), step.error))))
      && (step.EvalOk? ==> StageOf(t, c) == Some(Evaluated(g.revision, g.moved, step.path)))
      && (step.SetMemo? ==> StageOf(t, c) == Some(Decided(Resolved(Tip(g.revision, g.path, g.moved)))))
  {
  }

  lemma Inside(s: State, c: Caller)
    ensures StageOf(s, c) == Some(Fetching) ==> Resolving(s, c)
    ensures StageOf(s, c).Some? && StageOf(s, c).value.MemoCheck? ==> Resolving(s, c)
    ensures StageOf(s, c).Some? && StageOf(s, c).value.Evaluating? ==> Resolving(s, c)
  {
  }

  class HostRunner {
    const selfCheck: bool
    var lastRevision: Option<Revision>
    var memo: Option<(Revision, Path)>
    ghost var s: State

    constructor (selfCheck: bool)
      ensures Valid() && s == Fresh(selfCheck) && this.selfCheck == selfCheck
    {
      this.selfCheck := selfCheck;
      lastRevision, memo, s := None, None, Fresh(selfCheck);
      new;
      FreshInv(selfCheck);
    }

    /** The fields are the machine's: the last fetch's revision, and the memo. */
    ghost predicate Valid()
      reads this
    {
      Inv(s) && s.selfCheck == selfCheck && lastRevision == Last(s.fetches) && memo == s.memo
    }

    /** Other callers take any number of steps. */
    ghost method Others(c: Caller)
      requires Valid() && Resolving(s, c)
      modifies this`s
      ensures Valid() && Undisturbed(old(s), s, c)
    {
      hide Inv, InsideResolve;
      var steps: seq<Step> :| forall i :: 0 <= i < |steps| ==> Of(steps[i]) != Some(c);
      OthersLeaveTheLeader(s, steps, c);
      s := After(s, steps);
    }

    /** The evaluation half: the path memoised for the revision, or one evaluated
        now. A failed evaluation leaves the memo alone. */
    method SelfPath(ghost c: Caller, revision: Revision, moved: bool, evaluated: Option<Path>, error: int)
      returns (o: Outcome)
      requires Valid() && StageOf(s, c) == Some(MemoCheck(revision, moved))
      modifies this
      ensures Valid() && StageOf(s, c) == Some(Decided(o)) && lastRevision == old(lastRevision)
      ensures if old(memo).Some? && old(memo).value.0 == revision
              then o == Resolved(Tip(revision, old(memo).value.1, moved)) && memo == old(memo)
              else if evaluated.None? then o == EvalFailed(Tip(revision, "", moved), error) && memo == old(memo)
              else o == Resolved(Tip(revision, evaluated.value, moved)) && memo == Some((revision, evaluated.value))
    {
      hide Inv, Next, InsideResolve, Last;
      Inside(s, c);
      LeaderStep(s, CheckMemo(c), c);
      s := Next(s, CheckMemo(c));
      if memo.Some? && memo.value.0 == revision {
        return Resolved(Tip(revision, memo.value.1, moved));
      }
      o := Evaluate(c, revision, moved, evaluated, error);
    }

    /** Evaluating, on a memo miss. */
    method Evaluate(ghost c: Caller, revision: Revision, moved: bool, evaluated: Option<Path>, error: int)
      returns (o: Outcome)
      requires Valid() && StageOf(s, c) == Some(Evaluating(revision, moved))
      modifies this
      ensures Valid() && StageOf(s, c) == Some(Decided(o)) && lastRevision == old(lastRevision)
      ensures if evaluated.None? then o == EvalFailed(Tip(revision, "", moved), error) && memo == old(memo)
              else o == Resolved(Tip(revision, evaluated.value, moved)) && memo == Some((revision, evaluated.value))
    {
      hide Inv, Next, InsideResolve, Last;
      Inside(s, c);
      Others(c);
      if evaluated.None? {
        LeaderStep(s, EvalFail(c, error), c);
        s := Next(s, EvalFail(c, error));
        return EvalFailed(Tip(revision, "", moved), error);
      }
      LeaderStep(s, EvalOk(c, evaluated.value), c);
      s := Next(s, EvalOk(c, evaluated.value));
      Others(c);
      LeaderStep(s, SetMemo(c), c);
      memo := Some((revision, evaluated.value));
      s := Next(s, SetMemo(c));
      return Resolved(Tip(revision, evaluated.value, moved));
    }

    /** One leader's fetch and evaluation. The result is the outcome the machine
        decides, whatever other callers do meanwhile. */
    method ResolveTipOnce(ghost c: Caller, fetched: Option<Revision>, evaluated: Option<Path>, error: int)
      returns (o: Outcome)
      requires Valid() && StageOf(s, c) == Some(Fetching)
      modifies this
      ensures Valid() && StageOf(s, c) == Some(Decided(o))
      ensures fetched.None? ==> o == FetchFailed(error) && lastRevision == old(lastRevision) && memo == old(memo)
      ensures fetched.Some? ==>
        var rev := fetched.value;
        var moved := old(lastRevision).Some? && old(lastRevision).value != rev;
        && lastRevision == Some(rev)
        && (if !selfCheck then o == Resolved(Tip(rev, "", moved)) && memo == old(memo)
            else if old(memo).Some? && old(memo).value.0 == rev
            then o == Resolved(Tip(rev, old(memo).value.1, moved)) && memo == old(memo)
            else if evaluated.None? then o == EvalFailed(Tip(rev, "", moved), error) && memo == old(memo)
            else o == Resolved(Tip(rev, evaluated.value, moved)) && memo == Some((rev, evaluated.value)))
    {
      hide Inv, Next, InsideResolve, Last;
      Inside(s, c);
      Others(c);
      if fetched.None? {
        LeaderStep(s, FetchFail(c, error), c);
        s := Next(s, FetchFail(c, error));
        return FetchFailed(error);
      }
      var revision := fetched.value;
      LeaderStep(s, FetchOk(c, revision), c);
      s := Next(s, FetchOk(c, revision));
      Others(c);
      LeaderKnown(s, c);
      LeaderStep(s, SetBaseline(c), c);
      var moved := lastRevision.Some? && lastRevision.value != revision;
      lastRevision := Some(revision);
      s := Next(s, SetBaseline(c));
      if !selfCheck {
        return Resolved(Tip(revision, "", moved));
      }
      Others(c);
      o := SelfPath(c, revision, moved, evaluated, error);
    }
  }
}
