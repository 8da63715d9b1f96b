/** The orchestrator's "another pass, or stop" decision
    (cmd/launcher/internal/passmachine/passmachine.go). */
module PassMachine {
  import opened Options

  datatype Kind = Legacy | Implement | Fix | Land | Review | DeltaReview

  datatype Verdict = NoVerdict | Block | Approve

  datatype Reason =
    | NoStop | OutcomeReached | StopNoVerdict | VerdictNotBlock | MaxSlicesReached | MaxReviewRoundsReached
    | TerminalLandNoOutcome | ApproveNoOutcome | BudgetExceeded
    | DeltaReviewBlocked | DeltaReviewApproved | DeltaReviewNoVerdict

  /** Zero disables a cap. */
  datatype Caps = Caps(maxSlices: int, maxReviewRounds: int, maxBudgetTokens: int, maxBudgetUSD: real)

  datatype Phase = Active | TerminalCommitted

  datatype Input = Input(
    kind: Kind, verdict: Verdict, hasOutcome: bool, ready: bool, pass: int, reviewRounds: int,
    caps: Caps, phase: Phase, lastVerdict: Verdict, tokens: int, usd: real)

  datatype Decision = Decision(
    continues: bool, stop: Reason, next: Kind, phase: Phase, cap: Reason, incrementReviewRounds: bool)

  function Stops(why: Reason): Decision {
    Decision(false, why, Legacy, Active, NoStop, false)
  }

  function Transition(i: Input): Decision {
    match i.kind
    case Legacy => LegacyTransition(i)
    case Review => ReviewTransition(i)
    case DeltaReview => DeltaReviewTransition(i)
    case _ => if i.phase == TerminalCommitted then TerminalLandTransition(i) else ImplementFixTransition(i)
  }

  predicate SlicesSpent(i: Input) {
    i.caps.maxSlices > 0 && i.pass >= i.caps.maxSlices
  }

  predicate RoundsSpent(i: Input) {
    i.caps.maxReviewRounds > 0 && i.reviewRounds >= i.caps.maxReviewRounds
  }

  predicate BudgetSpent(i: Input) {
    || (i.caps.maxBudgetTokens > 0 && i.tokens >= i.caps.maxBudgetTokens)
    || (i.caps.maxBudgetUSD > 0.0 && i.usd >= i.caps.maxBudgetUSD)
  }

  function LegacyTransition(i: Input): Decision {
    if i.hasOutcome then Stops(OutcomeReached)
    else if i.verdict == NoVerdict then Stops(StopNoVerdict)
    else if i.verdict != Block then Stops(VerdictNotBlock)
    else if SlicesSpent(i) then Stops(MaxSlicesReached)
    else if RoundsSpent(i) then Stops(MaxReviewRoundsReached)
    else Decision(true, NoStop, Legacy, Active, NoStop, true)
  }

  function TerminalLandTransition(i: Input): Decision {
    if i.hasOutcome then Stops(OutcomeReached) else Stops(TerminalLandNoOutcome)
  }

  function ImplementFixTransition(i: Input): Decision {
    var premature := i.hasOutcome && i.ready && i.lastVerdict != Approve;
    if i.hasOutcome && !premature then Stops(OutcomeReached)
    else if i.lastVerdict == Approve then Stops(ApproveNoOutcome)
    else if SlicesSpent(i) then Decision(true, NoStop, Land, TerminalCommitted, MaxSlicesReached, false)
    else Decision(true, NoStop, Review, Active, NoStop, false)
  }

  function ReviewTransition(i: Input): Decision {
    var cap :=
      if i.verdict == NoVerdict then StopNoVerdict
      else if SlicesSpent(i) then MaxSlicesReached
      else if i.verdict == Block && RoundsSpent(i) then MaxReviewRoundsReached
      else if i.verdict == Block && BudgetSpent(i) then BudgetExceeded
      else NoStop;
    var committed := i.phase == TerminalCommitted || cap != NoStop || i.verdict == Approve;
    Decision(true, NoStop, if committed then Land else Fix,
             if cap != NoStop then TerminalCommitted else Active, cap, i.verdict == Block)
  }

  function DeltaReviewTransition(i: Input): Decision {
    match i.verdict
    case Block => Stops(DeltaReviewBlocked)
    case Approve => Stops(DeltaReviewApproved)
    case NoVerdict => Stops(DeltaReviewNoVerdict)
  }

  /** What one pass comes to, whatever the agent did in it: its verdict, whether it
      printed an outcome and that outcome was ready, and the run's usage by then. */
  datatype Turn = Turn(verdict: Verdict, hasOutcome: bool, ready: bool, tokens: int, usd: real)

  /** Where a run is: the pass under way and what earlier decisions left. */
  datatype Loop = Loop(kind: Kind, pass: int, rounds: int, phase: Phase, lastVerdict: Verdict)

  /** The pass after this one, if the run goes on. */
  function AfterPass(caps: Caps, l: Loop, t: Turn): Option<Loop> {
    var d := Transition(Input(l.kind, t.verdict, t.hasOutcome, t.ready, l.pass, l.rounds, caps,
                              l.phase, l.lastVerdict, t.tokens, t.usd));
    if !d.continues then None
    else Some(Loop(d.next, l.pass + 1, l.rounds + if d.incrementReviewRounds then 1 else 0,
                   if d.phase == TerminalCommitted then TerminalCommitted else l.phase,
                   if l.kind == Review then t.verdict else l.lastVerdict))
  }

  function AfterAll(caps: Caps, l: Loop, turns: seq<Turn>): Option<Loop>
    decreases |turns|
  {
    if turns == [] then Some(l)
    else
      var n := AfterPass(caps, l, turns[0]);
      if n.None? then None else AfterAll(caps, n.value, turns[1..])
  }

  /** One more pass of any kind and the run is over, whatever it comes to. */
  ghost predicate LastPass(caps: Caps, l: Loop) {
    forall t: Turn :: AfterPass(caps, l, t).None?
  }

  /** A review pass never ends the run. It is followed by a fix pass, one round on,
      exactly when it blocks, the run is not committed to landing and no cap is
      reached; otherwise by one land pass, which is the last. */
  lemma AfterReviewPass(caps: Caps, l: Loop, t: Turn)
    requires l.kind == Review
    ensures var n := AfterPass(caps, l, t);
      var again :=
        && t.verdict == Block && l.phase == Active
        && (caps.maxSlices <= 0 || l.pass < caps.maxSlices)
        && (caps.maxReviewRounds <= 0 || l.rounds < caps.maxReviewRounds)
        && (caps.maxBudgetTokens <= 0 || t.tokens < caps.maxBudgetTokens)
        && (caps.maxBudgetUSD <= 0.0 || t.usd < caps.maxBudgetUSD);
      && n.Some? && n.value.pass == l.pass + 1
      && (if again then n.value.kind == Fix && n.value.phase == Active && n.value.rounds == l.rounds + 1
          else n.value.kind == Land && LastPass(caps, n.value))
  {
  }

  /** A work pass that no review has approved ends the run exactly with an outcome
      that is not ready: a premature ready is reviewed like no outcome at all, unless
      the pass cap leaves room for the land pass only. */
  lemma AfterWorkPass(caps: Caps, l: Loop, t: Turn)
    requires l.kind in {Implement, Fix} && l.phase == Active && l.lastVerdict != Approve
    ensures var n := AfterPass(caps, l, t);
      && (n.None? <==> t.hasOutcome && !t.ready)
      && (n.Some? ==> n.value.pass == l.pass + 1 && n.value.rounds == l.rounds && n.value.lastVerdict == l.lastVerdict)
      && (n.Some? ==> if caps.maxSlices > 0 && l.pass >= caps.maxSlices
                      then n.value.kind == Land && LastPass(caps, n.value)
                      else n.value.kind == Review && n.value.phase == Active)
  {
  }

  /** A delta review schedules no further pass, and holds the run up only by blocking. */
  lemma DeltaReviewIsLast(caps: Caps, l: Loop, i: Input)
    requires l.kind == DeltaReview && i.kind == DeltaReview
    ensures LastPass(caps, l)
    ensures Transition(i).stop == DeltaReviewBlocked <==> i.verdict == Block
    ensures Transition(i).stop == DeltaReviewApproved <==> i.verdict == Approve
  {
  }

  /** The land pass of a committed run ends it well exactly when it prints an outcome. */
  lemma LandPassEnds(i: Input)
    requires i.kind == Land && i.phase == TerminalCommitted
    ensures !Transition(i).continues && (Transition(i).stop == OutcomeReached <==> i.hasOutcome)
  {
  }

  /** How many passes a run has left at most under its round cap. */
  function PassesLeft(caps: Caps, l: Loop): int {
    if l.kind == Land then 1
    else
      var rounds := if l.rounds < caps.maxReviewRounds then caps.maxReviewRounds - l.rounds else 0;
      2 * rounds + if l.kind == Review then 2 else 3
  }

  /** Where the review loop can be: working, reviewing what no one has approved, or in
      its last pass. */
  ghost predicate InLoop(caps: Caps, l: Loop) {
    || (l.kind in {Implement, Fix} && l.phase == Active && l.lastVerdict != Approve)
    || (l.kind == Review && l.phase == Active)
    || (l.kind == Land && LastPass(caps, l))
  }

  /** Under a round cap every run of the review loop ends, and how soon, whatever its
      agents and reviewers do. */
  lemma {:induction false} EveryRunEnds(caps: Caps, l: Loop, turns: seq<Turn>)
    requires caps.maxReviewRounds > 0 && InLoop(caps, l) && |turns| >= PassesLeft(caps, l)
    ensures AfterAll(caps, l, turns).None?
    decreases |turns|
  {
    hide AfterPass, LastPass;
    var t := turns[0];
    if l.kind == Land {
      LastIsLast(caps, l, t);
    } else if l.kind == Review {
      AfterReviewPass(caps, l, t);
      ReviewVerdictIsLast(caps, l, t);
      EveryRunEnds(caps, AfterPass(caps, l, t).value, turns[1..]);
    } else {
      AfterWorkPass(caps, l, t);
      if AfterPass(caps, l, t).Some? {
        EveryRunEnds(caps, AfterPass(caps, l, t).value, turns[1..]);
      }
    }
  }

  /** And the pass cap is a ceiling on the passes of a run but for the land pass. */
  lemma {:induction false} PassCapIsACeiling(caps: Caps, l: Loop, turns: seq<Turn>)
    requires caps.maxSlices > 0 && InLoop(caps, l) && l.pass >= 1
    requires |turns| >= if l.kind == Land then 1 else if l.pass < caps.maxSlices then caps.maxSlices + 2 - l.pass else 2
    ensures AfterAll(caps, l, turns).None?
    decreases |turns|
  {
    hide AfterPass, LastPass;
    var t := turns[0];
    if l.kind == Land {
      LastIsLast(caps, l, t);
    } else if l.kind == Review {
      AfterReviewPass(caps, l, t);
      ReviewVerdictIsLast(caps, l, t);
      PassCapIsACeiling(caps, AfterPass(caps, l, t).value, turns[1..]);
    } else {
      AfterWorkPass(caps, l, t);
      if AfterPass(caps, l, t).Some? {
        PassCapIsACeiling(caps, AfterPass(caps, l, t).value, turns[1..]);
      }
    }
  }

  lemma LastIsLast(caps: Caps, l: Loop, t: Turn)
    requires LastPass(caps, l)
    ensures AfterPass(caps, l, t).None?
  {
  }

  lemma ReviewVerdictIsLast(caps: Caps, l: Loop, t: Turn)
    requires l.kind == Review
    ensures AfterPass(caps, l, t).Some? ==> AfterPass(caps, l, t).value.lastVerdict == t.verdict
    ensures AfterPass(caps, l, t).Some? && AfterPass(caps, l, t).value.kind == Fix ==> t.verdict == Block
  {
  }
}
