/** Refusing a pair of caps of which the pass cap would always fire first
    (cmd/launcher/orchestrator/caps.go). */
module ReviewRoundCaps {
  import opened Options
  import opened PassMachine

  const MAX_INT := 0x7FFF_FFFF_FFFF_FFFF

  /** Go's int: every operation on it below is verified not to overflow. */
  newtype Int = x: int | -0x8000_0000_0000_0000 <= x <= MAX_INT

  const PROBE_MAX_PASSES: Int := 64

  /** The caps of a run, with no budget. */
  function Limits(slices: int, rounds: int): Caps {
    Caps(slices, rounds, 0, 0.0)
  }

  function AfterLegacy(pass: int, rounds: int, caps: Caps): Decision {
    Transition(Input(Legacy, Block, false, false, pass, rounds, caps, Active, NoVerdict, 0, 0.0))
  }

  function AfterReview(pass: int, rounds: int, caps: Caps): Decision {
    Transition(Input(Review, Block, false, false, pass, rounds, caps, Active, NoVerdict, 0, 0.0))
  }

  function AfterWork(kind: Kind, pass: int, caps: Caps, lastVerdict: Verdict): Decision
    requires kind == Implement || kind == Fix
  {
    Transition(Input(kind, NoVerdict, false, false, pass, 0, caps, Active, lastVerdict, 0, 0.0))
  }

  /** Which cap ends a run whose reviewer always blocks, and after which pass. */
  datatype End = End(cap: Reason, pass: int)

  /** The legacy loop from `pass` on. */
  function LegacyRun(caps: Caps, pass: int, rounds: int): End
    requires caps.maxReviewRounds > 0
    decreases caps.maxReviewRounds - rounds
  {
    var d := AfterLegacy(pass, rounds, caps);
    if !d.continues then End(d.stop, pass) else LegacyRun(caps, pass + 1, rounds + 1)
  }

  /** The review loop from a work pass on; it is over once a cap commits it. */
  function ReviewRun(caps: Caps, kind: Kind, pass: int, rounds: int, lastVerdict: Verdict): End
    requires caps.maxReviewRounds > 0 && (kind == Implement || kind == Fix) && lastVerdict != Approve
    decreases caps.maxReviewRounds - rounds
  {
    var d := AfterWork(kind, pass, caps, lastVerdict);
    if d.cap != NoStop then End(d.cap, pass)
    else
      var e := AfterReview(pass + 1, rounds, caps);
      if e.cap != NoStop then End(e.cap, pass + 1)
      else ReviewRun(caps, e.next, pass + 2, rounds + 1, Block)
  }

  function BlockedRun(caps: Caps, reviewPass: bool): End
    requires caps.maxReviewRounds > 0
  {
    if reviewPass then ReviewRun(caps, Implement, 1, 0, NoVerdict) else LegacyRun(caps, 1, 0)
  }

  /** The pass after which the review-round cap fires when passes are unlimited. */
  function Threshold(rounds: int, reviewPass: bool): int {
    if reviewPass then 2 * rounds + 2 else rounds + 1
  }

  function PerRound(reviewPass: bool): int {
    if reviewPass then 2 else 1
  }

  lemma {:induction false} LegacyEnds(slices: int, rounds: int, pass: int, done: int)
    requires rounds > 0 && 0 <= done <= rounds && pass == done + 1
    requires slices <= 0 || pass <= slices
    ensures LegacyRun(Limits(slices, rounds), pass, done) ==
      if slices <= 0 || slices > Threshold(rounds, false)
      then End(MaxReviewRoundsReached, Threshold(rounds, false)) else End(MaxSlicesReached, slices)
    decreases rounds - done
  {
    if done < rounds && (slices <= 0 || pass < slices) {
      LegacyEnds(slices, rounds, pass + 1, done + 1);
    }
  }

  lemma {:induction false} ReviewEnds(slices: int, rounds: int, kind: Kind, pass: int, done: int, lastVerdict: Verdict)
    requires rounds > 0 && 0 <= done <= rounds && pass == 2 * done + 1
    requires (kind == Implement || kind == Fix) && lastVerdict != Approve
    requires slices <= 0 || pass <= slices
    ensures ReviewRun(Limits(slices, rounds), kind, pass, done, lastVerdict) ==
      if slices <= 0 || slices > Threshold(rounds, true)
      then End(MaxReviewRoundsReached, Threshold(rounds, true)) else End(MaxSlicesReached, slices)
    decreases rounds - done
  {
    if done < rounds && (slices <= 0 || pass + 1 < slices) {
      ReviewEnds(slices, rounds, Fix, pass + 2, done + 1, Block);
    }
  }

  /** The review-round cap is reachable exactly when the pass cap is above the
      threshold; otherwise the pass cap ends the run. The threshold is linear in the
      round cap, for every cap. */
  lemma RoundsReachedIff(slices: int, rounds: int, reviewPass: bool)
    requires rounds > 0
    ensures BlockedRun(Limits(slices, rounds), reviewPass) ==
      if slices <= 0 || slices > Threshold(rounds, reviewPass)
      then End(MaxReviewRoundsReached, Threshold(rounds, reviewPass)) else End(MaxSlicesReached, slices)
  {
    if reviewPass {
      ReviewEnds(slices, rounds, Implement, 1, 0, NoVerdict);
    } else {
      LegacyEnds(slices, rounds, 1, 0);
    }
  }

  /** Walk the always-blocked run of a round cap from its first pass to its end. */
  method CapFiredPass(rounds: Int, reviewPass: bool) returns (r: Option<Int>)
    ensures r == if rounds > 0 && Threshold(rounds as int, reviewPass) <= PROBE_MAX_PASSES as int
                 then Some(Threshold(rounds as int, reviewPass) as Int) else None
  {
    var caps := Limits(0, rounds as int);
    var pass: Int := 0;
    var done: Int := 0;
    if !reviewPass {
      while true
        invariant 0 <= pass <= PROBE_MAX_PASSES && done == pass
        invariant rounds > 0 ==> done <= rounds
        decreases PROBE_MAX_PASSES - pass
      {
        pass := pass + 1;
        if pass > PROBE_MAX_PASSES {
          return None;
        }
        var d := AfterLegacy(pass as int, done as int, caps);
        if d.stop == MaxReviewRoundsReached {
          return Some(pass);
        }
        if !d.continues {
          return None;
        }
        if d.incrementReviewRounds {
          done := done + 1;
        }
      }
    }
    var kind := Implement;
    var phase := Active;
    while true
      invariant 0 <= pass <= PROBE_MAX_PASSES && phase == Active
      invariant kind in {Implement, Fix, Review} && (kind == Review <==> pass % 2 == 1)
      invariant done as int == pass as int / 2 && (rounds > 0 ==> done <= rounds)
      decreases PROBE_MAX_PASSES - pass
    {
      pass := pass + 1;
      if pass > PROBE_MAX_PASSES {
        return None;
      }
      var d;
      if kind == Review {
        d := AfterReview(pass as int, done as int, caps);
        if d.incrementReviewRounds {
          done := done + 1;
        }
      } else {
        d := AfterWork(kind, pass as int, caps, NoVerdict);
      }
      if d.cap == MaxReviewRoundsReached {
        return Some(pass);
      }
      if !d.continues {
        return None;
      }
      if d.phase == TerminalCommitted {
        phase := TerminalCommitted;
      }
      kind := d.next;
    }
  }

  /** The guard of the extrapolation is exact: below it there is room for one more
      round under MAX_INT, from it on there is not. */
  lemma QuotientBound(pass1: int, perRound: int, extra: int)
    requires 0 < perRound && 0 <= pass1 <= MAX_INT && 0 <= extra
    ensures 0 <= extra * perRound
    ensures extra < (MAX_INT - pass1) / perRound <==> pass1 + extra * perRound <= MAX_INT - perRound
  {
    var a, q := MAX_INT - pass1, (MAX_INT - pass1) / perRound;
    Quotient(a, perRound, q);
    if extra < q {
      Monotone(extra + 1, q, perRound);
    } else {
      Monotone(q, extra, perRound);
    }
    Monotone(0, extra, perRound);
  }

  lemma Quotient(a: int, b: int, q: int)
    requires 0 < b && q == a / b
    ensures q * b <= a < q * b + b
  {
  }

  lemma Monotone(x: int, y: int, b: int)
    requires x <= y && 0 <= b
    ensures x * b <= y * b
    ensures (x - 1) * b == x * b - b
  {
  }

  /** Extrapolate the pass linearly from the probes at caps 1 and 2, saturating
      below MAX_INT. */
  method Extrapolate(pass1: Int, pass2: Int, rounds: Int) returns (r: Int)
    requires 1 <= pass1 < pass2 <= PROBE_MAX_PASSES && rounds > 0
    ensures var exact, perRound := pass1 as int + (rounds as int - 1) * (pass2 as int - pass1 as int), pass2 as int - pass1 as int;
      && 0 < r as int <= MAX_INT - 1
      && r as int == if exact <= MAX_INT - perRound then exact else MAX_INT - 1
  {
    var perRound := pass2 - pass1;
    var extraRounds := rounds - 1;
    ghost var product := extraRounds as int * perRound as int;
    QuotientBound(pass1 as int, perRound as int, extraRounds as int);
    var room := MAX_INT as Int - pass1;
    if extraRounds >= room / perRound {
      return MAX_INT as Int - 1;
    }
    assert 0 <= product <= MAX_INT;
    r := pass1 + extraRounds * perRound;
  }

  method SimulateReviewRoundCapPass(rounds: Int, reviewPass: bool) returns (r: Option<Int>)
    requires rounds > 0
    ensures r.Some? && 0 < r.value as int <= MAX_INT - 1
    ensures Threshold(rounds as int, reviewPass) <= MAX_INT - PerRound(reviewPass) ==>
      r.value as int == Threshold(rounds as int, reviewPass)
    ensures Threshold(rounds as int, reviewPass) > MAX_INT - PerRound(reviewPass) ==> r.value as int == MAX_INT - 1
  {
    var pass1 := CapFiredPass(1, reviewPass);
    if pass1.None? {
      return None;
    }
    if rounds == 1 {
      return pass1;
    }
    var pass2 := CapFiredPass(2, reviewPass);
    if pass2.None? {
      return None;
    }
    if pass2.value - pass1.value <= 0 {
      return None;
    }
    var pass := Extrapolate(pass1.value, pass2.value, rounds);
    return Some(pass);
  }

  /** Reject a pass cap too small for the review-round cap ever to be reached. Up
      to saturation at MAX_INT the answer is exact. */
  method ValidateCaps(rounds: Int, slices: Int, reviewPass: bool) returns (accepted: bool)
    ensures rounds <= 0 || slices <= 0 ==> accepted
    ensures rounds > 0 && slices > 0 ==>
      (accepted <==> slices as int > Threshold(rounds as int, reviewPass) || slices as int == MAX_INT)
  {
    if rounds <= 0 || slices <= 0 {
      return true;
    }
    var simPass := SimulateReviewRoundCapPass(rounds, reviewPass);
    if simPass.None? {
      return false;
    }
    var minSlices := simPass.value + 1;
    return slices >= minSlices;
  }

  /** So a rejected pair is one whose run the pass cap ends, and below MAX_INT an
      accepted one is one whose run the review-round cap ends. */
  lemma AcceptedIffRoundsReached(rounds: int, slices: int, reviewPass: bool, accepted: bool)
    requires rounds > 0 && 0 < slices <= MAX_INT
    requires accepted <==> slices > Threshold(rounds, reviewPass) || slices == MAX_INT
    ensures (accepted <==> BlockedRun(Limits(slices, rounds), reviewPass).cap == MaxReviewRoundsReached)
       <==> !(slices == MAX_INT && Threshold(rounds, reviewPass) >= MAX_INT)
  {
    RoundsReachedIff(slices, rounds, reviewPass);
  }
}
