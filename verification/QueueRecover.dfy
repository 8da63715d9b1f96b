/** Queue-mode recover (cmd/launcher/main.go, recover_queue.go): one scan over the
    failed issues claims at most one and never strands it in progress, whenever a
    stop or an abort arrives. */
module QueueRecover {
  import opened Options

  type Number = string

  datatype Label = Failed | InProgress | Complete | Ambiguous | Dispatchable | Other

  /** Failed landings of the issue's current bundle. */
  datatype Record = Record(count: nat, gaveUp: bool)

  /** One attempt to relay an issue's finished branch: whether it settled, and whether
      a latch had closed before it began. */
  datatype Relay = Relay(issue: Number, settled: bool, late: bool)

  /** The branches this process tried to land, the issues it found off failed, those
      it commented on to give up, those whose attempt record should have gone and could
      not be removed, and how many label edits and record writes were refused. */
  datatype Log = Log(relays: seq<Relay>, off: set<Number>, comments: seq<Number>, stale: set<Number>, faults: nat)

  /** The tracker's labels, the operator's two latches and the shutdown gate that
      observes them, the registry of issues an abort has taken, and the attempt
      records on disk. `claims` lists the issues this process moved to in progress. */
  datatype State = State(
    labels: map<Number, Label>,
    stop: bool, abort: bool,
    signalled: bool, aborted: bool, watching: bool, inflight: set<Number>,
    marked: set<Number>,
    records: map<Number, Record>,
    claims: seq<Number>,
    log: Log)

  function LabelOf(s: State, n: Number): Label {
    if n in s.labels then s.labels[n] else Other
  }

  function FoundOff(g: Log, n: Number): Log {
    g.(off := g.off + {n})
  }

  function OneRefused(g: Log): Log {
    g.(faults := g.faults + 1)
  }

  /** What may happen between two of this process's steps: a latch closes, the
      watcher takes the issues in flight once the abort has, and other actors
      relabel anything, except that none puts an issue this process claimed back in
      progress. */
  predicate Drifts(s: State, t: State) {
    && (s.stop ==> t.stop) && (s.abort ==> t.abort)
    && t.claims == s.claims && t.records == s.records && t.log == s.log
    && t.watching == s.watching && t.inflight == s.inflight && t.signalled == s.signalled
    && (if t.aborted == s.aborted then t.marked == s.marked
        else !s.aborted && s.watching && t.abort && s.marked <= t.marked <= s.marked + s.inflight)
    && forall i :: 0 <= i < |s.claims| && s.claims[i] !in t.marked ==>
         LabelOf(t, s.claims[i]) == LabelOf(s, s.claims[i]) || LabelOf(t, s.claims[i]) != InProgress
  }

  /** A missing record means no attempts yet. */
  function Load(s: State, n: Number): Record {
    if n in s.records then s.records[n] else Record(0, false)
  }

  /** Issue `n` is off in progress, or an abort has taken it and its watcher
      reclaims it. */
  predicate NotStranded(s: State, n: Number) {
    LabelOf(s, n) != InProgress || n in s.marked
  }

  datatype TransitionResult = Moved | AlreadyClaimed | Refused

  datatype Error =
    | FetchFailed | LockFailed | ResolvePRFailed | MkdirFailed | BundleUnreadable | RecordNotSaved
    | ListFailed | ClaimFailed | RestoreFailed | ParkFailed | NoPRForge

  datatype Result = Done | Ineligible | SignalledStop | QueueEmpty | Failing(error: Error)

  /** What is known of the run that left the issue. */
  datatype Situation = Situation(bundlePresent: bool, selfReportSuccess: bool, unreviewed: bool)

  datatype Claim = Free | Owned | Unreadable

  /** What the scan reads about a candidate before its label is touched: the issue,
      the claim another process may hold on it, whether it has an open PR, the log
      directory, its situation, its bundle's identity, whether its last attempt is
      still too recent, and the fresh list of failed issues. */
  datatype Reads = Reads(
    fetched: bool, claim: Claim, pr: Option<bool>, logDir: bool, sit: Situation,
    bundleID: bool, backingOff: bool, relisted: bool)

  /** The candidate carries the evidence a hand-run recover trusts, everything about
      it could be read, and it has attempts left. */
  predicate Landable(x: Reads, rec: Record, maxAttempts: nat) {
    && x.fetched && x.claim.Free? && x.pr == Some(false) && x.logDir && x.bundleID && x.relisted
    && x.sit.bundlePresent && x.sit.selfReportSuccess && !x.sit.unreviewed
    && !rec.gaveUp && rec.count < maxAttempts && !x.backingOff
  }

  /** The candidate would be landable but has no attempts left, and nobody has been
      told. */
  predicate Spent(x: Reads, rec: Record, maxAttempts: nat) {
    && x.fetched && x.claim.Free? && x.pr == Some(false) && x.logDir && x.bundleID
    && x.sit.bundlePresent && x.sit.selfReportSuccess && !x.sit.unreviewed
    && !rec.gaveUp && rec.count >= maxAttempts
  }

  /** An issue without a record has every attempt before it. */
  lemma FreshIsLandable(x: Reads, s: State, n: Number, maxAttempts: nat)
    requires n !in s.records
    ensures Landable(x, Load(s, n), maxAttempts) <==> maxAttempts > 0 && Landable(x, Record(0, false), 1)
    ensures !Spent(x, Load(s, n), maxAttempts) || maxAttempts == 0
  {
  }

  /** What an error that is returned comes from. */
  predicate HasCause(e: Error, x: Reads, refused: bool) {
    match e
    case FetchFailed => !x.fetched
    case LockFailed => x.claim.Unreadable?
    case ResolvePRFailed => x.pr.None?
    case MkdirFailed => !x.logDir
    case BundleUnreadable => !x.bundleID
    case ListFailed => !x.relisted
    case _ => refused && !e.NoPRForge?
  }

  /** One more attempt of `n`'s, after `rec`, is on record, and nothing else changed. */
  predicate Attempted(was: map<Number, Record>, now: map<Number, Record>, n: Number, rec: Record) {
    || now == was[n := Record(rec.count + 1, rec.gaveUp)]
    || now == was[n := Record(rec.count + 1, true)]
  }

  lemma AttemptedBy(was: map<Number, Record>, n: Number, rec: Record, next: Record)
    requires next.count == rec.count + 1 && (rec.gaveUp ==> next.gaveUp)
    ensures Attempted(was, was[n := next], n, rec) && was[n := next][n] == next
  {
  }

  lemma {:induction false} DriftsItself(s: State)
    ensures Drifts(s, s)
  {
  }

  /** Between two steps a claimed issue that is not stranded stays so. */
  lemma {:induction false} StaysOff(s: State, t: State, n: Number)
    requires Drifts(s, t) && n in s.claims
    ensures NotStranded(s, n) ==> NotStranded(t, n)
  {
    var i :| 0 <= i < |s.claims| && s.claims[i] == n;
    assert n !in t.marked ==> LabelOf(t, s.claims[i]) == LabelOf(s, s.claims[i]) || LabelOf(t, s.claims[i]) != InProgress;
  }

  /** Nothing but the latches, the gate's view of them and other actors' labels has
      changed. */
  predicate OnlyObserved(s: State, t: State) {
    && t.claims == s.claims && t.records == s.records && t.marked == s.marked && t.inflight == s.inflight
    && t.log == s.log
  }

  /** The gate knows exactly which latches have closed since it was at `s`. */
  predicate UpToDate(s: State, t: State) {
    && (s.stop ==> t.stop) && (s.abort ==> t.abort)
    && (t.signalled <==> s.signalled || t.stop)
    && (t.aborted <==> s.aborted || t.abort)
  }

  /** The verdict of the relay is on record: a landed issue's attempts are forgotten,
      if their record can be removed, and an issue that could not be landed is back on failed with one more. */
  predicate Recorded(was: map<Number, Record>, t: State, n: Number, rec: Record) {
    || (t.log.relays == [Relay(n, true, false)] && (t.records == was - {n} || (t.records == was && n in t.log.stale)))
    || (t.log.relays == [Relay(n, false, false)] && LabelOf(t, n) == Failed && Attempted(was, t.records, n, rec))
  }

  /** An outage is never read as nothing eligible: what had to be read before the
      candidate could be passed over was read. */
  predicate ReadsBeforeSucceeded(x: Reads) {
    && x.fetched && !x.claim.Unreadable?
    && (x.claim.Free? ==> x.pr.Some?)
    && (x.claim.Free? && x.pr == Some(false) ==> x.logDir)
  }

  /** Of the records only `n`'s may have changed, and only one out of attempts, to say
      that recovery gave up. */
  predicate OnlyGaveUp(s: State, t: State, n: Number, maxAttempts: nat) {
    || t.records == s.records
    || (t.records == s.records[n := Load(s, n).(gaveUp := true)] && Load(s, n).count >= maxAttempts)
  }

  /** Giving up on one candidate changes nobody's standing. */
  lemma LandableStays(s: State, t: State, n: Number, maxAttempts: nat)
    requires OnlyGaveUp(s, t, n, maxAttempts)
    ensures forall x: Reads, m: Number :: Landable(x, Load(t, m), maxAttempts) <==> Landable(x, Load(s, m), maxAttempts)
  {
  }

  class Launcher {
    var w: State
    const maxAttempts: nat

    constructor (labels: map<Number, Label>, records: map<Number, Record>, maxAttempts: nat)
      ensures w == State(labels, false, false, false, false, false, {}, {}, records, [], Log([], {}, [], {}, 0))
      ensures this.maxAttempts == maxAttempts
    {
      w := State(labels, false, false, false, false, false, {}, {}, records, [], Log([], {}, [], {}, 0));
      this.maxAttempts := maxAttempts;
    }

    method Interfere()
      modifies this
      ensures Drifts(old(w), w)
    {
      DriftsItself(w);
      var t: State :| Drifts(w, t);
      w := t;
    }

    /** The gate latches what has closed. With nothing in flight an abort seen here
        takes nothing. */
    method Observe()
      requires w.inflight == {}
      modifies this
      ensures w == old(w).(signalled := old(w).signalled || old(w).stop, aborted := old(w).aborted || old(w).abort)
    {
      w := w.(signalled := w.signalled || w.stop, aborted := w.aborted || w.abort);
    }

    /** May the caller go on to claim and launch? */
    method Allowed() returns (ok: bool)
      requires w.inflight == {}
      modifies this
      ensures OnlyObserved(old(w), w) && UpToDate(old(w), w)
      ensures ok <==> !(w.signalled || w.aborted)
      ensures old(w).stop || old(w).abort ==> !ok
    {
      Interfere();
      Observe();
      ok := !(w.signalled || w.aborted);
    }

    /** Register `n` as in flight, unless a signal arrived first. */
    method Launch(n: Number) returns (ok: bool)
      requires w.inflight == {}
      modifies this
      ensures OnlyObserved(old(w), w.(inflight := {})) && w.inflight == if ok then {n} else {}
      ensures UpToDate(old(w), w)
      ensures ok <==> !(w.signalled || w.aborted)
      ensures old(w).stop || old(w).abort ==> !ok
    {
      Interfere();
      Observe();
      ok := !(w.signalled || w.aborted);
      if ok {
        w := w.(inflight := {n});
      }
    }

    /** Forget the issue in flight, join the watcher, and read both latches once
        more. */
    method LeaveAndSettle()
      modifies this
      ensures w.claims == old(w).claims && w.records == old(w).records && w.log == old(w).log
      ensures w.inflight == {} && !w.watching
      ensures forall i :: 0 <= i < |w.claims| && NotStranded(old(w), w.claims[i]) ==> NotStranded(w, w.claims[i])
      ensures forall n :: n in w.marked && n !in old(w).marked ==> n in old(w).inflight && w.aborted
      ensures old(w).aborted ==> w.aborted && w.marked == old(w).marked
      ensures old(w).marked <= w.marked
      ensures UpToDate(old(w), w)
    {
      Interfere();
      w := w.(inflight := {}, watching := false);
      Observe();
    }

    /** One label edit. Nothing is promised about the label of a refused one. */
    method TransitionState(n: Number, to: Label) returns (r: TransitionResult)
      requires w.inflight == {}
      modifies this
      ensures w.claims == old(w).claims + if to == InProgress && r.Moved? then [n] else []
      ensures w.log == match r
        case Moved => old(w).log
        case AlreadyClaimed => FoundOff(old(w).log, n)
        case Refused => OneRefused(old(w).log)
      ensures w.records == old(w).records && w.marked == old(w).marked && w.inflight == {}
      ensures w.signalled == old(w).signalled && (old(w).aborted ==> w.aborted) && w.watching == old(w).watching
      ensures (old(w).stop ==> w.stop) && (old(w).abort ==> w.abort) && (w.aborted ==> old(w).aborted || w.abort)
      ensures r.Moved? ==> LabelOf(w, n) == to
      ensures r.AlreadyClaimed? ==> to == InProgress && LabelOf(w, n) == InProgress
    {
      Interfere();
      var refused: bool := *;
      if to == InProgress && LabelOf(w, n) == InProgress {
        w := w.(log := FoundOff(w.log, n));
        return AlreadyClaimed;
      }
      if refused {
        w := w.(log := OneRefused(w.log));
        return Refused;
      }
      w := w.(labels := w.labels[n := to], claims := w.claims + if to == InProgress then [n] else []);
      return Moved;
    }

    /** Relay the finished branch and settle the issue on what came of it. A relay
        that settled has moved the label, or an abort took the issue meanwhile; one
        that did not settle has left the label alone. */
    method SettleRelayedBranch(n: Number) returns (settled: bool, denied: bool)
      requires n in w.claims
      modifies this
      ensures w.claims == old(w).claims && w.records == old(w).records && w.inflight == old(w).inflight
      ensures w.log == old(w).log.(relays := old(w).log.relays + [Relay(n, settled, old(w).stop || old(w).abort)])
      ensures settled ==> NotStranded(w, n)
      ensures old(w).marked <= w.marked <= old(w).marked + old(w).inflight
      ensures (w.marked != old(w).marked ==> w.aborted) && (old(w).aborted ==> w.aborted)
      ensures w.signalled == old(w).signalled && (old(w).stop ==> w.stop) && (old(w).abort ==> w.abort)
      ensures w.aborted ==> old(w).aborted || w.abort
    {
      var late := w.stop || w.abort;
      Interfere();
      settled := *;
      denied := *;
      if settled && n !in w.marked {
        var to: Label :| to.Complete? || to.Failed? || to.Ambiguous?;
        w := w.(labels := w.labels[n := to]);
      }
      w := w.(log := w.log.(relays := w.log.relays + [Relay(n, settled, late)]));
      ghost var before := w;
      Interfere();
      StaysOff(before, w, n);
    }

    /** Post the give-up comment, which may fail, and say so in the record. */
    method GiveUp(n: Number, rec: Record) returns (r: Record)
      modifies this
      ensures w == old(w).(log := old(w).log.(comments := old(w).log.comments + [n]))
      ensures r == rec || r == rec.(gaveUp := true)
    {
      w := w.(log := w.log.(comments := w.log.comments + [n]));
      var posted: bool := *;
      r := if posted then rec.(gaveUp := true) else rec;
    }

    /** A fresh list of the failed issues, and whether `n` is on it. */
    method Relist(n: Number) returns (wears: bool)
      requires w.inflight == {}
      modifies this
      ensures Drifts(old(w), w.(log := old(w).log))
      ensures wears <==> LabelOf(w, n) == Failed
      ensures w.log == if wears then old(w).log else FoundOff(old(w).log, n)
    {
      Interfere();
      wears := LabelOf(w, n) == Failed;
      if !wears {
        w := w.(log := FoundOff(w.log, n));
      }
    }

    method Save(n: Number, rec: Record) returns (ok: bool)
      modifies this
      ensures w == if ok then old(w).(records := old(w).records[n := rec]) else old(w).(log := OneRefused(old(w).log))
    {
      ok := *;
      if ok {
        w := w.(records := w.records[n := rec]);
      } else {
        w := w.(log := OneRefused(w.log));
      }
    }

    /** One more attempt on record, and a comment with the one that is the last. */
    method RecordAttempt(n: Number, rec: Record, denied: bool) returns (saved: bool)
      modifies this
      ensures w == old(w).(records := w.records, log := w.log)
      ensures if saved then Attempted(old(w).records, w.records, n, rec) else w.records == old(w).records
      ensures saved && w.records[n].gaveUp ==> rec.gaveUp || rec.count + 1 >= maxAttempts || denied
      ensures w.log == old(w).log.(
                comments := old(w).log.comments + (if rec.count + 1 >= maxAttempts || denied then [n] else []),
                faults := old(w).log.faults + if saved then 0 else 1)
    {
      hide Attempted;
      var next := rec.(count := rec.count + 1);
      if next.count >= maxAttempts || denied {
        next := GiveUp(n, next);
      }
      AttemptedBy(w.records, n, rec, next);
      saved := Save(n, next);
    }

    /** Park an issue that was claimed but could not be landed: one more attempt on
        record, and the label back on failed, each tried whatever the other does. */
    method ParkQueueFailure(n: Number, rec: Record, denied: bool) returns (err: Option<Error>)
      requires w.inflight == {}
      modifies this
      ensures w.claims == old(w).claims && w.inflight == {} && w.marked == old(w).marked
      ensures w.log.relays == old(w).log.relays && w.log.off == old(w).log.off
      ensures w.log.comments == old(w).log.comments + if rec.count + 1 >= maxAttempts || denied then [n] else []
      ensures if err.None? then w.log.faults == old(w).log.faults else w.log.faults > old(w).log.faults
      ensures w.signalled == old(w).signalled && w.watching == old(w).watching
      ensures (old(w).stop ==> w.stop) && (old(w).abort ==> w.abort) && (w.aborted ==> old(w).aborted || w.abort)
      ensures err != Some(ParkFailed) ==> LabelOf(w, n) == Failed
      ensures err.None? ==> Attempted(old(w).records, w.records, n, rec)
      ensures err.None? && w.records[n].gaveUp ==> rec.gaveUp || rec.count + 1 >= maxAttempts || denied
      ensures w.records == old(w).records || Attempted(old(w).records, w.records, n, rec)
      ensures err in {None, Some(ParkFailed), Some(RecordNotSaved)}
    {
      hide Attempted;
      var saved := RecordAttempt(n, rec, denied);
      var moved := TransitionState(n, Failed);
      if !moved.Moved? {
        return Some(ParkFailed);
      }
      if !saved {
        return Some(RecordNotSaved);
      }
      return None;
    }

    /** Record the settle's verdict: a landed issue's attempts are forgotten, a
        failed one is parked. */
    method FinishQueueSettle(n: Number, rec: Record, settled: bool, denied: bool) returns (err: Option<Error>)
      requires w.inflight == {}
      requires settled ==> NotStranded(w, n)
      modifies this
      ensures w.claims == old(w).claims && w.inflight == {} && w.marked == old(w).marked
      ensures w.log.relays == old(w).log.relays && w.log.off == old(w).log.off
      ensures w.log.comments == old(w).log.comments +
        if !settled && (rec.count + 1 >= maxAttempts || denied) then [n] else []
      ensures if err.None? then w.log.faults == old(w).log.faults else w.log.faults > old(w).log.faults
      ensures w.signalled == old(w).signalled && w.watching == old(w).watching
      ensures (old(w).stop ==> w.stop) && (old(w).abort ==> w.abort) && (w.aborted ==> old(w).aborted || w.abort)
      ensures err != Some(ParkFailed) ==> NotStranded(w, n)
      ensures settled ==> err.None?
      ensures !settled && err.None? ==> Attempted(old(w).records, w.records, n, rec)
      ensures settled ==> w.records == old(w).records - {n} || (w.records == old(w).records && n in w.log.stale)
      ensures !settled ==> err != Some(ParkFailed) ==> LabelOf(w, n) == Failed
      ensures err in {None, Some(ParkFailed), Some(RecordNotSaved)}
    {
      if settled {
        var removed: bool := *;
        if removed {
          w := w.(records := w.records - {n});
        } else {
          w := w.(log := w.log.(stale := w.log.stale + {n}));
        }
        return None;
      }
      err := ParkQueueFailure(n, rec, denied);
    }

    /** What the reads about the issue, its run and its bundle come to: nothing that
        stands in the way, or the first thing that does. */
    method FirstReads(x: Reads) returns (verdict: Option<Result>)
      ensures verdict.None? <==>
        && x.fetched && x.claim.Free? && x.pr == Some(false) && x.logDir && x.bundleID
        && x.sit.bundlePresent && x.sit.selfReportSuccess && !x.sit.unreviewed
      ensures verdict.Some? ==> verdict.value.Ineligible? || verdict.value.Failing?
      ensures verdict == Some(Ineligible) || verdict.None? ==> ReadsBeforeSucceeded(x)
      ensures verdict.Some? && verdict.value.Failing? ==>
                !verdict.value.error.ListFailed? && HasCause(verdict.value.error, x, false)
    {
      if !x.fetched {
        return Some(Failing(FetchFailed));
      }
      if x.claim.Owned? {
        return Some(Ineligible);
      }
      if x.claim.Unreadable? {
        return Some(Failing(LockFailed));
      }
      if x.pr.None? {
        return Some(Failing(ResolvePRFailed));
      }
      if x.pr.value {
        return Some(Ineligible);
      }
      if !x.logDir {
        return Some(Failing(MkdirFailed));
      }
      if !x.sit.bundlePresent || !x.sit.selfReportSuccess || x.sit.unreviewed {
        return Some(Ineligible);
      }
      if !x.bundleID {
        return Some(Failing(BundleUnreadable));
      }
      return None;
    }

    /** Everything read before the issue's label is touched: whether to go on, and
        the attempt record if so. `seen` is the state the gate was last read in. */
    method Eligible(n: Number, x: Reads) returns (verdict: Option<Result>, rec: Record, ghost seen: State)
      requires w.inflight == {} && w.claims == []
      modifies this
      ensures w.claims == [] && w.inflight == {} && w.marked == old(w).marked && w.log.relays == old(w).log.relays
      ensures verdict.Some? ==> verdict.value.Ineligible? || verdict.value.SignalledStop? || verdict.value.Failing?
      ensures verdict.None? ==> LabelOf(w, n) == Failed
      ensures verdict.None? ==> Landable(x, Load(old(w), n), maxAttempts)
      ensures verdict.None? ==> rec == Load(old(w), n) && w.records == old(w).records
      ensures old(w).stop || old(w).abort ==> verdict == Some(SignalledStop)
      ensures verdict.None? ==> !seen.stop && !seen.abort && Drifts(seen, w)
      ensures (w.signalled ==> old(w).signalled || w.stop) && (w.aborted ==> old(w).aborted || w.abort)
      ensures verdict == Some(SignalledStop) ==> w.signalled || w.aborted
      // Stopped, off failed by now, or not landable: nothing else holds it back.
      ensures verdict == Some(Ineligible) ==> !Landable(x, Load(old(w), n), maxAttempts) || n in w.log.off
      ensures verdict == Some(Ineligible) || verdict.None? ==> ReadsBeforeSucceeded(x)
      ensures verdict.Some? && verdict.value.Failing? ==>
                && !Landable(x, Load(old(w), n), maxAttempts)
                && HasCause(verdict.value.error, x, w.log.faults > old(w).log.faults)
      ensures old(w).log.off <= w.log.off <= old(w).log.off + {n} && w.log.faults >= old(w).log.faults
      ensures w.log.comments == old(w).log.comments
              || (w.log.comments == old(w).log.comments + [n] && Spent(x, Load(old(w), n), maxAttempts))
      ensures Spent(x, Load(old(w), n), maxAttempts) && verdict != Some(SignalledStop) ==>
                w.log.comments == old(w).log.comments + [n]
      ensures verdict.None? ==> w.log.comments == old(w).log.comments
      ensures verdict.None? ==> w.log.off == old(w).log.off && w.log.faults == old(w).log.faults
      ensures OnlyGaveUp(old(w), w, n, maxAttempts)
    {
      hide ReadsBeforeSucceeded;
      seen := w;
      rec := Record(0, false);
      var ok := Allowed();
      if !ok {
        return Some(SignalledStop), rec, seen;
      }
      Interfere(); // the reads take their time
      verdict := FirstReads(x);
      if verdict.Some? {
        return;
      }
      rec := Load(w, n);
      if rec.gaveUp || (rec.count < maxAttempts && x.backingOff) {
        return Some(Ineligible), rec, seen;
      }
      if rec.count >= maxAttempts {
        rec := GiveUp(n, rec);
        if rec.gaveUp {
          var saved := Save(n, rec);
          if !saved {
            return Some(Failing(RecordNotSaved)), rec, seen;
          }
        }
        return Some(Ineligible), rec, seen;
      }
      verdict, seen := Confirm(n, x);
    }

    /** The last look before the label is touched: a stop sent during the reads wins,
        and so does whoever has moved the issue off failed. */
    method Confirm(n: Number, x: Reads) returns (verdict: Option<Result>, ghost seen: State)
      requires w.inflight == {} && w.claims == []
      modifies this
      ensures w.claims == [] && w.inflight == {} && w.marked == old(w).marked && w.records == old(w).records
      ensures w.log == if verdict == Some(Ineligible) then FoundOff(old(w).log, n) else old(w).log
      ensures match verdict
        case None => x.relisted && LabelOf(w, n) == Failed && !seen.stop && !seen.abort && Drifts(seen, w)
        case Some(SignalledStop) => w.signalled || w.aborted
        case Some(Failing(e)) => e == ListFailed && !x.relisted
        case Some(r) => r.Ineligible?
      ensures old(w).stop || old(w).abort ==> verdict == Some(SignalledStop)
      ensures (old(w).stop ==> w.stop) && (old(w).abort ==> w.abort)
      ensures (w.signalled ==> old(w).signalled || w.stop) && (w.aborted ==> old(w).aborted || w.abort)
    {
      var ok := Allowed();
      seen := w;
      if !ok {
        return Some(SignalledStop), seen;
      }
      if !x.relisted {
        return Some(Failing(ListFailed)), seen;
      }
      var wears := Relist(n);
      if !wears {
        return Some(Ineligible), seen;
      }
      return None, seen;
    }

    /** One candidate. Once its label has been moved to in progress, every return
        either leaves it off in progress or taken by an abort, or is the tracker's
        refusal to move it; and the scan never goes on to another candidate. No label
        is touched unless both latches were open in `seen`, the gate's last reading
        before it. */
    method RecoverIssue(n: Number, x: Reads) returns (r: Result, ghost seen: State)
      requires w.claims == [] && w.log.relays == [] && w.inflight == {} && n !in w.marked
      modifies this
      ensures w.claims == [] || w.claims == [n]
      ensures w.inflight == {} && !w.watching
      ensures w.claims == [n] ==> NotStranded(w, n) || r in {Failing(RestoreFailed), Failing(ParkFailed)}
      ensures w.claims == [n] ==> !r.Ineligible?
      ensures n in w.marked ==> r.SignalledStop? && w.claims == [n]
      ensures w.marked <= old(w).marked + {n}
      ensures r.Done? ==> w.claims == [n] && NotStranded(w, n) && !w.signalled && !w.aborted
      ensures !r.QueueEmpty?
      // A candidate is passed over only for a reason, and an error has its cause.
      ensures r.Ineligible? ==> !Landable(x, Load(old(w), n), maxAttempts) || n in w.log.off
      ensures r.Ineligible? ==> ReadsBeforeSucceeded(x) && OnlyGaveUp(old(w), w, n, maxAttempts)
      ensures r.Failing? ==> HasCause(r.error, x, w.log.faults > old(w).log.faults)
      ensures old(w).log.off <= w.log.off <= old(w).log.off + {n} && w.log.faults >= old(w).log.faults
      // What is claimed is relayed, unless a stop arrived, and the verdict recorded.
      ensures w.log.relays == []
              || (w.claims == [n] && w.log.relays in {[Relay(n, true, false)], [Relay(n, false, false)]})
      ensures w.claims == [n] && w.log.relays == [] ==>
                (w.stop || w.abort) && r in {SignalledStop, Failing(RestoreFailed)}
      ensures r.Done? ==> Recorded(old(w).records, w, n, Load(old(w), n))
      ensures Landable(x, Load(old(w), n), maxAttempts) && n !in w.log.off && w.log.faults == old(w).log.faults ==>
                r.Done? || w.stop || w.abort
      ensures w.claims == [n] ==> Landable(x, Load(old(w), n), maxAttempts)
      ensures old(w).stop || old(w).abort ==> w.claims == [] && r.SignalledStop?
      ensures w.claims == [n] ==> !seen.stop && !seen.abort
      ensures r.SignalledStop? ==> w.stop || w.abort
    {
      hide Attempted, Recorded, Landable, Drifts, NotStranded, ReadsBeforeSucceeded;
      w := w.(signalled := false, aborted := false, watching := true);
      var verdict, rec;
      verdict, rec, seen := Eligible(n, x);
      if verdict.Some? {
        LeaveAndSettle();
        return verdict.value, seen;
      }
      r := ClaimAndLand(n, rec);
    }

    /** The candidate is claimed and, unless a stop arrives first, landed. */
    method ClaimAndLand(n: Number, rec: Record) returns (r: Result)
      requires w.claims == [] && w.log.relays == [] && w.inflight == {} && n !in w.marked
      requires (w.signalled ==> w.stop) && (w.aborted ==> w.abort)
      modifies this
      ensures w.claims == [] || w.claims == [n]
      ensures w.inflight == {} && !w.watching
      ensures w.claims == [] ==> r == Failing(ClaimFailed) || (r.Ineligible? && n in w.log.off)
      ensures w.claims == [] ==> w.log.relays == [] && w.marked == old(w).marked && w.records == old(w).records
      ensures w.claims == [n] ==> NotStranded(w, n) || r in {Failing(RestoreFailed), Failing(ParkFailed)}
      ensures w.claims == [n] ==>
                r in {Done, SignalledStop, Failing(RestoreFailed), Failing(ParkFailed), Failing(RecordNotSaved)}
      ensures n in w.marked ==> r.SignalledStop?
      ensures w.marked <= old(w).marked + {n}
      ensures r.Done? ==> w.claims == [n] && !w.signalled && !w.aborted && Recorded(old(w).records, w, n, rec)
      ensures r.SignalledStop? ==> w.stop || w.abort
      ensures old(w).log.off <= w.log.off <= old(w).log.off + {n} && w.log.faults >= old(w).log.faults
      ensures r.Failing? ==> w.log.faults > old(w).log.faults
      ensures w.log.relays == [] || w.log.relays in {[Relay(n, true, false)], [Relay(n, false, false)]}
      ensures w.claims == [n] && w.log.relays == [] ==>
                (w.stop || w.abort) && r in {SignalledStop, Failing(RestoreFailed)}
    {
      hide Attempted, Recorded, Drifts;
      var claimed := TransitionState(n, InProgress);
      if !claimed.Moved? {
        LeaveAndSettle();
        return if claimed.AlreadyClaimed? then Ineligible else Failing(ClaimFailed);
      }
      assert w.claims[0] == n;
      var launched := Launch(n);
      if !launched {
        var restored := TransitionState(n, Failed);
        LeaveAndSettle();
        return if restored.Moved? then SignalledStop else Failing(RestoreFailed);
      }
      r := Land(n, rec);
    }

    /** The claimed issue's branch is relayed and the verdict recorded, which only an
        abort that has taken the issue wins over. */
    method Land(n: Number, rec: Record) returns (r: Result)
      requires w.claims == [n] && w.inflight == {n} && w.log.relays == [] && n !in w.marked
      requires (w.signalled ==> w.stop) && (w.aborted ==> w.abort)
      requires !w.stop && !w.abort
      modifies this
      ensures w.claims == [n] && w.inflight == {} && !w.watching
      ensures NotStranded(w, n) || r == Failing(ParkFailed)
      ensures r in {Done, SignalledStop, Failing(ParkFailed), Failing(RecordNotSaved)}
      ensures n in w.marked ==> r.SignalledStop?
      ensures w.marked <= old(w).marked + {n}
      ensures r.Done? ==> !w.signalled && !w.aborted
      ensures r.SignalledStop? ==> w.stop || w.abort
      ensures w.log.off == old(w).log.off && w.log.faults >= old(w).log.faults
      ensures r.Failing? ==> w.log.faults > old(w).log.faults
      ensures w.log.relays in {[Relay(n, true, false)], [Relay(n, false, false)]}
      ensures r.Done? ==> Recorded(old(w).records, w, n, rec)
    {
      hide Attempted;
      var settled, denied := SettleRelayedBranch(n);
      assert w.log.relays == [Relay(n, settled, false)];
      LeaveAndSettle();
      assert w.claims[0] == n;
      if w.aborted && n in w.marked {
        return SignalledStop;
      }
      var err := FinishQueueSettle(n, rec, settled, denied);
      if err.Some? {
        return Failing(err.value);
      }
      if w.signalled || w.aborted {
        return SignalledStop;
      }
      return Done;
    }

    /** The whole scan: at most one claim, and no claimed issue left in progress
        except one an abort took or one whose move the tracker refused, which is
        the error returned. */
    method RecoverQueueOne(prForge: bool, listing: Option<seq<Number>>, about: Number -> Reads)
      returns (r: Result, ghost passed: nat)
      requires w.claims == [] && w.log.relays == [] && w.inflight == {} && w.marked == {} && w.log.off == {}
      modifies this
      ensures |w.claims| <= 1
      ensures forall n :: n in w.claims ==> NotStranded(w, n) || r in {Failing(RestoreFailed), Failing(ParkFailed)}
      ensures forall n :: n in w.marked ==> w.claims == [n] && r.SignalledStop?
      ensures !r.Ineligible?
      ensures r.QueueEmpty? ==> w.claims == []
      ensures r.Done? ==> |w.claims| == 1
      ensures r.SignalledStop? ==> w.stop || w.abort
      ensures prForge && (old(w).stop || old(w).abort) ==> w.claims == [] && r.SignalledStop?
      // The first `passed` candidates each had a reason; the scan ends with the next.
      ensures passed <= if listing.Some? then |listing.value| else 0
      ensures forall i :: 0 <= i < passed ==>
        || !Landable(about(listing.value[i]), Load(old(w), listing.value[i]), maxAttempts)
        || listing.value[i] in w.log.off
      ensures r.QueueEmpty? ==> listing.Some? && passed == |listing.value|
      ensures w.claims != [] ==> listing.Some? && passed < |listing.value| && w.claims == [listing.value[passed]]
      ensures w.claims != [] && w.log.relays == [] ==> w.stop || w.abort
      ensures r.Done? ==> w.log.relays in {[Relay(w.claims[0], true, false)], [Relay(w.claims[0], false, false)]}
      ensures r.Failing? ==>
        || (r == Failing(NoPRForge) && !prForge) || (r == Failing(ListFailed) && listing.None?)
        || (listing.Some? && passed < |listing.value|
            && HasCause(r.error, about(listing.value[passed]), w.log.faults > old(w).log.faults))
    {
      hide Landable, NotStranded, ReadsBeforeSucceeded, OnlyGaveUp, Recorded;
      passed := 0;
      if !prForge {
        return Failing(NoPRForge), passed;
      }
      Interfere();
      if w.stop || w.abort {
        return SignalledStop, passed;
      }
      if listing.None? {
        return Failing(ListFailed), passed;
      }
      var failed := listing.value;
      for i := 0 to |failed|
        invariant w.claims == [] && w.log.relays == [] && w.inflight == {} && w.marked == {}
        invariant passed == i && w.log.faults >= old(w).log.faults
        invariant forall x: Reads, m: Number ::
          Landable(x, Load(w, m), maxAttempts) <==> Landable(x, Load(old(w), m), maxAttempts)
        invariant forall j :: 0 <= j < i ==>
          !Landable(about(failed[j]), Load(old(w), failed[j]), maxAttempts) || failed[j] in w.log.off
      {
        Interfere();
        if w.stop || w.abort {
          return SignalledStop, passed;
        }
        ghost var was := w;
        ghost var seen;
        r, seen := RecoverIssue(failed[i], about(failed[i]));
        if !r.Ineligible? {
          return;
        }
        LandableStays(was, w, failed[i], maxAttempts);
        passed := i + 1;
      }
      return QueueEmpty, passed;
    }
  }
}
