/** What following a Dispatch and linking to it from history amount to: the same
    view as a rescan, and the Dispatch a row belongs to. */
module FollowTheorems {
  import opened Options
  import opened Dispatches
  import opened DispatchViews
  import opened DispatchFollows

  /** The view of a scan of `es` for the query, if any child_start matches. */
  function Find(q: Query, es: seq<Event>): Option<View> {
    var k := LastMatch(q, es, |es|);
    if k.Some? then Some(MeaningOf(HistoryAt(q.slot, es, k.value))) else None
  }

  /** The query that names the child_start at `k` by its own identity. */
  function Naming(slot: int, es: seq<Event>, k: nat): Query
    requires k < |es|
  {
    Query(slot, es[k].time, StartNAt(slot, es, k))
  }

  /** The child_start at `i` has the identity of the one at `k`. */
  predicate SameIdentity(slot: int, es: seq<Event>, k: nat, i: nat)
    requires k < |es| && i < |es|
  {
    && StartsOn(es[i], slot)
    && es[i].time == es[k].time && StartNAt(slot, es, i) == StartNAt(slot, es, k)
  }

  lemma LastKeyAtStart(slot: int, es: seq<Event>, k: nat)
    requires k < |es| && StartsOn(es[k], slot)
    ensures LastKey(Starts(es[..k + 1], slot)) == Some(Key(es[k].time, StartNAt(slot, es, k)))
  {
    assert es[..k + 1][..k] == es[..k];
  }

  lemma MatchesNaming(slot: int, es: seq<Event>, k: nat, i: nat)
    requires k < |es| && i < |es| && StartsOn(es[k], slot)
    requires es[k].time != ""
    ensures Matches(Naming(slot, es, k), es, i) <==> SameIdentity(slot, es, k, i)
  {
    if StartsOn(es[i], slot) {
      LastKeyAtStart(slot, es, i);
    }
  }

  lemma LastMatchIs(q: Query, es: seq<Event>, n: nat, k: nat)
    requires k < n <= |es| && Matches(q, es, k)
    requires forall i :: k < i < n ==> !Matches(q, es, i)
    ensures LastMatch(q, es, n) == Some(k)
  {
  }

  /** Following a Dispatch after its scan ends at the same child_start that a
      rescan for its own identity finds, exactly when nothing that came after the
      scan claimed that identity; and then both show the same view. */
  lemma FollowEqualsRescanIff(s: State)
    requires Tracks(s) && s.pinned && s.found.Some?
    requires s.found.value.start.time != ""
    ensures var k := LastMatch(s.q, s.events, s.scanned).value;
            var again := LastMatch(Naming(s.q.slot, s.events, k), s.events, |s.events|);
      && again.Some?
      && (again == Some(k) <==>
          forall i :: s.scanned <= i < |s.events| ==> !SameIdentity(s.q.slot, s.events, k, i))
      && (again == Some(k) ==>
          Find(Naming(s.q.slot, s.events, k), s.events) == Some(MeaningOf(s.found.value)))
  {
    hide Starts, LastKey, HistoryAt, MeaningOf, StartNAt;
    var slot, es, k := s.q.slot, s.events, LastMatch(s.q, s.events, s.scanned).value;
    HistoryStart(slot, es, k);
    var name := Naming(slot, es, k);
    forall i | 0 <= i < |es| ensures Matches(name, es, i) <==> SameIdentity(slot, es, k, i) {
      MatchesNaming(slot, es, k, i);
    }
    NoOtherBefore(s.q, es, s.scanned, k);
    if forall i :: s.scanned <= i < |es| ==> !SameIdentity(slot, es, k, i) {
      LastMatchIs(name, es, |es|, k);
    }
  }

  lemma HistoryStart(slot: int, es: seq<Event>, k: nat)
    requires k < |es|
    ensures HistoryAt(slot, es, k).start == es[k]
  {
  }

  /** The scan took the last child_start with the identity it ended on. */
  lemma NoOtherBefore(q: Query, es: seq<Event>, n: nat, k: nat)
    requires n <= |es| && LastMatch(q, es, n) == Some(k)
    ensures forall i :: k < i < n ==> !SameIdentity(q.slot, es, k, i)
  {
    hide Starts, LastKey, StartNAt;
    LastKeyAtStart(q.slot, es, k);
    forall i | k < i < n ensures !SameIdentity(q.slot, es, k, i) {
      assert !Matches(q, es, i);
      if SameIdentity(q.slot, es, k, i) {
        LastKeyAtStart(q.slot, es, i);
      }
    }
  }

  /** Where the child_start at `k` stands among its slot's child_starts. */
  lemma StartIndex(slot: int, es: seq<Event>, k: nat)
    requires k < |es| && StartsOn(es[k], slot)
    ensures var i, ts := |Starts(es[..k], slot)|, Starts(es, slot);
      && i < |ts| && ts[..i + 1] == Starts(es[..k + 1], slot)
      && KeyAt(ts, i) == Key(es[k].time, StartNAt(slot, es, k))
  {
    hide Repeats;
    var before := Starts(es[..k], slot);
    assert es[..k + 1][..k] == es[..k];
    assert Starts(es[..k + 1], slot) == before + [es[k].time];
    assert es[..k + 1] + es[k + 1..] == es;
    StartsAppend(es[..k + 1], es[k + 1..], slot);
    assert Starts(es, slot)[..|before| + 1] == before + [es[k].time];
  }

  lemma LaterStartsCountMore(slot: int, es: seq<Event>, k: nat, i: nat)
    requires k < i < |es| && StartsOn(es[k], slot)
    ensures |Starts(es[..k], slot)| < |Starts(es[..i], slot)|
  {
    assert es[..k + 1][..k] == es[..k];
    assert es[..k + 1] + es[k + 1..i] == es[..i];
    StartsAppend(es[..k + 1], es[k + 1..i], slot);
  }

  /** On a slot whose times never come back, an identity names one child_start. */
  lemma IdentityIsUnique(slot: int, es: seq<Event>, k: nat, i: nat)
    requires k < i < |es| && StartsOn(es[k], slot)
    requires Contiguous(Starts(es, slot))
    ensures !SameIdentity(slot, es, k, i)
  {
    if SameIdentity(slot, es, k, i) {
      var ts := Starts(es, slot);
      KeysAreUniqueIff(ts);
      StartIndex(slot, es, k);
      StartIndex(slot, es, i);
      LaterStartsCountMore(slot, es, k, i);
      assert false;
    }
  }

  /** So following a Dispatch always shows what a rescan for it would. */
  lemma FollowEqualsRescan(s: State)
    requires Tracks(s) && s.pinned && s.found.Some? && s.found.value.start.time != ""
    requires Contiguous(Starts(s.events, s.q.slot))
    ensures var k := LastMatch(s.q, s.events, s.scanned).value;
      Find(Naming(s.q.slot, s.events, k), s.events) == Some(MeaningOf(s.found.value))
  {
    hide Starts, LastKey, StartNAt, MeaningOf;
    var k := LastMatch(s.q, s.events, s.scanned).value;
    FollowEqualsRescanIff(s);
    forall i | s.scanned <= i < |s.events| ensures !SameIdentity(s.q.slot, s.events, k, i) {
      IdentityIsUnique(s.q.slot, s.events, k, i);
    }
  }

  /** Whatever is folded into a pinned follow, the tab set only grows at its end,
      keeps one tab a path, and stands still once the Dispatch has closed. */
  lemma {:induction false} TabsOverARun(s: State, es: seq<Event>, gens: seq<nat>)
    requires s.pinned && s.found.Some? && |es| == |gens|
    ensures var t := FoldedAll(s, es, gens);
      && t.pinned && t.found.Some?
      && var v, w := MeaningOf(s.found.value), MeaningOf(t.found.value);
         && v.passLogs <= w.passLogs && DistinctPaths(w.passLogs)
         && v.started == w.started && v.startN == w.startN
         && (v.closed ==> w.closed && w.passLogs == v.passLogs)
    decreases |es|
  {
    if es == [] {
      PassLogsMeaning(s.found.value.absorbed, PassLog("", ""));
    } else {
      var n := |es| - 1;
      TabsOverARun(s, es[..n], gens[..n]);
      var t := FoldedAll(s, es[..n], gens[..n]);
      TabsOverAnEvent(t.found.value, es[n]);
      PassLogsMeaning(Extended(t.found.value, es[n]).absorbed, PassLog("", ""));
      FoldedPinned(t, es[n], gens[n]);
    }
  }

  function FoldedAll(s: State, es: seq<Event>, gens: seq<nat>): State
    requires |es| == |gens|
    decreases |es|
  {
    if es == [] then s
    else Folded(FoldedAll(s, es[..|es| - 1], gens[..|es| - 1]), es[|es| - 1], gens[|es| - 1])
  }

  lemma FoldedPinned(s: State, ev: Event, gen: nat)
    requires s.pinned && s.found.Some?
    ensures Folded(s, ev, gen).pinned
    ensures Folded(s, ev, gen).found == Some(s.found.value)
            || Folded(s, ev, gen).found == Some(Extended(s.found.value, ev))
  {
  }

  lemma {:induction false} TabsOverAnEvent(h: History, ev: Event)
    ensures var v, w := MeaningOf(h), MeaningOf(Extended(h, ev));
      && v.passLogs <= w.passLogs && v.started == w.started && v.startN == w.startN
      && (v.closed ==> w.closed && w.passLogs == v.passLogs)
  {
    hide HasFinish, Announces, NewSubject, SubjectOf, ShortRev, PassLogsOf, SubjectsOf, RevisionOf, Latest;
    MeaningAppend(h.slot, h.start, h.startN, h.absorbed, ev);
  }

  predicate AllAre(ts: seq<string>, t: string) {
    forall i :: 0 <= i < |ts| ==> ts[i] == t
  }

  /** The child_start at `k` of `b` continues a run of equal times that began in `a`. */
  predicate CountsAcross(slot: int, a: seq<Event>, b: seq<Event>, k: nat)
    requires k < |b|
  {
    var before, here := Starts(a, slot), Starts(b[..k + 1], slot);
    before != [] && AllAre(here, before[|before| - 1])
  }

  lemma {:induction false} RepeatsAcross(a: seq<string>, b: seq<string>)
    requires b != []
    ensures var across := a != [] && AllAre(b, a[|a| - 1]);
      && Repeats(a + b) == Repeats(b) + (if across then 1 + Repeats(a) else 0)
      && (across ==> Repeats(b) == |b| - 1)
  {
    hide Repeats, AllAre;
    var n := |b| - 1;
    var rest := b[..n];
    assert b == rest + [b[n]] && a + b == (a + rest) + [b[n]];
    RepeatsNext(rest, b[n]);
    RepeatsNext(a + rest, b[n]);
    if a != [] {
      AllAreNext(rest, b[n], a[|a| - 1]);
    }
    if n == 0 {
      assert a + rest == a;
      AllAreNone();
    } else {
      RepeatsAcross(a, rest);
      LastOfAll(rest, a);
    }
  }

  lemma AllAreNext(ts: seq<string>, x: string, t: string)
    ensures AllAre(ts + [x], t) <==> AllAre(ts, t) && x == t
  {
    assert (ts + [x])[|ts|] == x;
    assert forall i :: 0 <= i < |ts| ==> (ts + [x])[i] == ts[i];
  }

  lemma AllAreNone()
    ensures forall t :: AllAre([], t)
  {
  }

  lemma LastOfAll(ts: seq<string>, a: seq<string>)
    requires ts != []
    ensures a != [] && AllAre(ts, a[|a| - 1]) ==> ts[|ts| - 1] == a[|a| - 1]
    ensures (a + ts)[|a + ts| - 1] == ts[|ts| - 1]
  {
  }

  lemma {:induction false} RepeatsNext(s: seq<string>, x: string)
    ensures Repeats(s + [x]) == if s != [] && s[|s| - 1] == x then 1 + Repeats(s) else 0
  {
    assert (s + [x])[..|s|] == s;
  }

  /** Dropping the events before `b` leaves the identity of the child_start at `k`
      of `b` alone unless it continues a run of equal times that began before. */
  lemma {:induction false} StartNAfterDrop(slot: int, a: seq<Event>, b: seq<Event>, k: nat)
    requires k < |b| && StartsOn(b[k], slot)
    ensures StartNAt(slot, a + b, |a| + k) == StartNAt(slot, b, k) <==> !CountsAcross(slot, a, b, k)
    ensures CountsAcross(slot, a, b, k) ==>
              StartNAt(slot, a + b, |a| + k) > StartNAt(slot, b, k) == |Starts(b[..k + 1], slot)| - 1
  {
    assert (a + b)[..|a| + k + 1] == a + b[..k + 1];
    StartsAppend(a, b[..k + 1], slot);
    LastKeyAtStart(slot, b, k);
    RepeatsAcross(Starts(a, slot), Starts(b[..k + 1], slot));
  }

  lemma ContiguousSuffix(a: seq<string>, b: seq<string>)
    requires Contiguous(a + b)
    ensures Contiguous(b)
  {
    forall i, j, k | 0 <= i < j < k < |b| && b[i] == b[k]
      ensures b[j] == b[i]
    {
      var s := a + b;
      assert s[|a| + i] == s[|a| + k] && s[|a| + j] == b[j];
    }
  }

  lemma HistoryAfterDrop(slot: int, a: seq<Event>, b: seq<Event>, k: nat)
    requires k < |b| && StartNAt(slot, a + b, |a| + k) == StartNAt(slot, b, k)
    ensures HistoryAt(slot, a + b, |a| + k) == HistoryAt(slot, b, k)
  {
    assert (a + b)[|a| + k + 1..] == b[k + 1..];
  }

  lemma LastMatchNamed(slot: int, es: seq<Event>, k: nat)
    requires k < |es| && StartsOn(es[k], slot) && es[k].time != ""
    requires Contiguous(Starts(es, slot))
    ensures LastMatch(Naming(slot, es, k), es, |es|) == Some(k)
  {
    hide Starts, LastKey, StartNAt;
    var name := Naming(slot, es, k);
    MatchesNaming(slot, es, k, k);
    forall i | k < i < |es| ensures !Matches(name, es, i) {
      MatchesNaming(slot, es, k, i);
      IdentityIsUnique(slot, es, k, i);
    }
    LastMatchIs(name, es, |es|, k);
  }

  /** A link to a child_start that rotation has left on disk still finds it exactly
      when no run of equal times is cut before it; otherwise it finds a later
      child_start or none. */
  lemma {:induction false} RetainedLinkIff(slot: int, a: seq<Event>, b: seq<Event>, k: nat)
    requires k < |b| && StartsOn(b[k], slot) && b[k].time != ""
    requires Contiguous(Starts(a + b, slot))
    ensures var found := LastMatch(Naming(slot, a + b, |a| + k), b, |b|);
      && (found == Some(k) <==> !CountsAcross(slot, a, b, k))
      && (CountsAcross(slot, a, b, k) && found.Some? ==> found.value > k)
  {
    hide CountsAcross, Contiguous;
    StartsAppend(a, b, slot);
    ContiguousSuffix(Starts(a, slot), Starts(b, slot));
    StartNAfterDrop(slot, a, b, k);
    if CountsAcross(slot, a, b, k) {
      var name := Naming(slot, a + b, |a| + k);
      forall i | 0 <= i <= k ensures !Matches(name, b, i) {
        NotEarlier(slot, a, b, k, i);
      }
    } else {
      LastMatchNamed(slot, b, k);
    }
  }

  /** The other way round: a scan that reads more than the one that numbered the
      child_start at `k` of `b`, `a` before it, finds it exactly when no run of equal
      times joins the two. */
  lemma {:induction false} LongerScanIff(slot: int, a: seq<Event>, b: seq<Event>, k: nat)
    requires k < |b| && StartsOn(b[k], slot) && b[k].time != ""
    requires Contiguous(Starts(a + b, slot))
    ensures var found := LastMatch(Naming(slot, b, k), a + b, |a + b|);
      && (found == Some(|a| + k) <==> !CountsAcross(slot, a, b, k))
      && (found == Some(|a| + k) ==> HistoryAt(slot, a + b, |a| + k) == HistoryAt(slot, b, k))
  {
    hide CountsAcross, Contiguous, HistoryAt, Starts, StartNAt, Matches;
    StartNAfterDrop(slot, a, b, k);
    if CountsAcross(slot, a, b, k) {
      NumberedOtherwise(slot, a + b, |a| + k, Naming(slot, b, k));
    } else {
      LastMatchNamed(slot, a + b, |a| + k);
      HistoryAfterDrop(slot, a, b, k);
    }
  }

  lemma NumberedOtherwise(slot: int, es: seq<Event>, k: nat, q: Query)
    requires k < |es| && StartsOn(es[k], slot) && q.slot == slot && q.at != "" && q.n != StartNAt(slot, es, k)
    ensures !Matches(q, es, k)
  {
    hide Starts, LastKey, StartNAt;
    LastKeyAtStart(slot, es, k);
  }

  lemma {:induction false} NotEarlier(slot: int, a: seq<Event>, b: seq<Event>, k: nat, i: nat)
    requires i <= k < |b| && StartsOn(b[k], slot) && b[k].time != "" && CountsAcross(slot, a, b, k)
    ensures !Matches(Naming(slot, a + b, |a| + k), b, i)
  {
    StartNAfterDrop(slot, a, b, k);
    if StartsOn(b[i], slot) {
      LastKeyAtStart(slot, b, i);
      assert b[..i + 1] + b[i + 1..k + 1] == b[..k + 1];
      StartsAppend(b[..i + 1], b[i + 1..k + 1], slot);
    }
  }

  /** The `m`-th child_start on a slot. */
  lemma {:induction false} NthStart(slot: int, es: seq<Event>, m: nat) returns (i: nat)
    requires m < |Starts(es, slot)|
    ensures i < |es| && StartsOn(es[i], slot) && |Starts(es[..i], slot)| == m
    ensures es[i].time == Starts(es, slot)[m]
  {
    var n := |es| - 1;
    if m < |Starts(es[..n], slot)| {
      i := NthStart(slot, es[..n], m);
      assert es[..n][..i] == es[..i];
    } else {
      i := n;
    }
  }

  /** A child_start of `b` whose time already came in `a` is numbered by its place. */
  lemma {:induction false} CountedByPlace(slot: int, a: seq<Event>, b: seq<Event>, i: nat)
    requires i < |b| && StartsOn(b[i], slot) && b[i].time in Starts(a, slot)
    requires Contiguous(Starts(a + b, slot))
    ensures StartNAt(slot, b, i) == |Starts(b[..i], slot)|
  {
    StartsAppend(a, b, slot);
    StartIndex(slot, b, i);
    var before, all := Starts(a, slot), Starts(b, slot);
    var here := Starts(b[..i + 1], slot);
    var j :| 0 <= j < |before| && before[j] == b[i].time;
    LastKeyAtStart(slot, b, i);
    forall m | 0 <= m < |here|
      ensures here[m] == b[i].time
    {
      var s := before + all;
      assert s[j] == b[i].time && s[|before| + |here| - 1] == b[i].time && s[|before| + m] == here[m];
    }
    RepeatsAcross([b[i].time], here);
  }

  /** A link to a child_start that rotation has dropped finds nothing, unless the
      child_starts left on disk go on repeating its time often enough to reach its
      number again. */
  lemma {:induction false} DroppedLinkIff(slot: int, a: seq<Event>, b: seq<Event>, k: nat)
    requires k < |a| && StartsOn(a[k], slot) && a[k].time != ""
    requires Contiguous(Starts(a + b, slot))
    ensures var name, left := Naming(slot, a + b, k), Starts(b, slot);
      LastMatch(name, b, |b|).None? <==> !(name.n < |left| && left[name.n] == a[k].time)
  {
    var name, left := Naming(slot, a + b, k), Starts(b, slot);
    StartIndex(slot, a, k);
    assert a[k].time in Starts(a, slot);
    var found := LastMatch(name, b, |b|);
    if found.Some? {
      var i := found.value;
      LastKeyAtStart(slot, b, i);
      CountedByPlace(slot, a, b, i);
      StartIndex(slot, b, i);
    }
    if name.n < |left| && left[name.n] == a[k].time {
      var i := NthStart(slot, b, name.n);
      CountedByPlace(slot, a, b, i);
      LastKeyAtStart(slot, b, i);
      assert Matches(name, b, i);
    }
  }

  /** What the link naming the child_start at `k` of `a + b` finds when only `b` is
      left on disk: that child_start, in full, exactly when it is left and keeps its
      number; a later one or nothing when it is left but renumbered; and when it is
      gone, nothing unless a later one has come by its number. */
  ghost predicate LinkOutcome(slot: int, a: seq<Event>, b: seq<Event>, k: nat)
    requires k < |a + b|
  {
    var name := Naming(slot, a + b, k);
    var found := LastMatch(name, b, |b|);
    if k < |a| then
      found.None? <==> !(name.n < |Starts(b, slot)| && Starts(b, slot)[name.n] == name.at)
    else
      && (found == Some(k - |a|) <==> !CountsAcross(slot, a, b, k - |a|))
      && (found == Some(k - |a|) ==> Find(name, b) == Some(MeaningOf(HistoryAt(slot, a + b, k))))
      && (found.Some? ==> found.value >= k - |a|)
  }

  lemma {:induction false} LinksAfterDrop(slot: int, a: seq<Event>, b: seq<Event>, k: nat)
    requires k < |a + b| && StartsOn((a + b)[k], slot) && (a + b)[k].time != ""
    requires Contiguous(Starts(a + b, slot))
    ensures LinkOutcome(slot, a, b, k)
  {
    hide Starts, Contiguous, CountsAcross, StartNAt, MeaningOf, HistoryAt;
    if k < |a| {
      DroppedLinkIff(slot, a, b, k);
    } else {
      RetainedLinkIff(slot, a, b, k - |a|);
      StartNAfterDrop(slot, a, b, k - |a|);
      if !CountsAcross(slot, a, b, k - |a|) {
        HistoryAfterDrop(slot, a, b, k - |a|);
      }
    }
  }

  /** The owner history gives a row at `r`: the slot's identity after it. */
  function RowOwner(es: seq<Event>, r: nat): Option<Key>
    requires r < |es|
  {
    Lookup(ClaimedAll(es[..r + 1]), es[r].slot)
  }

  /** The latest child_start on a slot among the first `n` events. */
  function LatestStart(slot: int, es: seq<Event>, n: nat): (k: Option<nat>)
    requires n <= |es|
    ensures k.Some? ==> k.value < n && StartsOn(es[k.value], slot)
    ensures forall i :: (k.Some? ==> k.value < i) && 0 <= i < n ==> !StartsOn(es[i], slot)
  {
    if n == 0 then None
    else if StartsOn(es[n - 1], slot) then Some(n - 1)
    else LatestStart(slot, es, n - 1)
  }

  lemma {:induction false} StartsUpToLatest(slot: int, es: seq<Event>, n: nat)
    requires n <= |es|
    ensures var k := LatestStart(slot, es, n);
      Starts(es[..n], slot) == if k.Some? then Starts(es[..k.value + 1], slot) else []
  {
    hide Starts;
    if n == 0 {
      NoStarts(es, slot);
    } else if !StartsOn(es[n - 1], slot) {
      StartsUpToLatest(slot, es, n - 1);
      StartsNoMore(es, n - 1, slot);
    }
  }

  /** A query without a time finds the slot's latest Dispatch. */
  lemma {:induction false} LatestIsFound(q: Query, es: seq<Event>, n: nat)
    requires n <= |es| && q.at == ""
    ensures LastMatch(q, es, n) == LatestStart(q.slot, es, n)
  {
    if n > 0 {
      LatestIsFound(q, es, n - 1);
    }
  }

  /** The events of a Dispatch are all its slot reported after its child_start and
      before the next, in order. */
  lemma {:induction false} SegmentIsAll(slot: int, es: seq<Event>, k: nat, i: nat)
    requires k < i < |es| && StartsOn(es[k], slot) && es[i].slot == Some(slot)
    requires LatestStart(slot, es, i + 1) == Some(k)
    ensures Segment(slot, es[k + 1..i + 1]) == Segment(slot, es[k + 1..i]) + [es[i]]
    ensures Segment(slot, es[k + 1..i + 1]) <= Segment(slot, es[k + 1..])
  {
    var upTo := es[k + 1..i + 1];
    assert upTo == es[k + 1..i] + [es[i]];
    SegmentAppend(slot, es[k + 1..i], es[i]);
    forall j | 0 <= j < |upTo| ensures !StartsOn(upTo[j], slot) {
      assert upTo[j] == es[k + 1 + j];
    }
    assert es[k + 1..] == upTo + es[i + 1..];
    SegmentGrows(slot, upTo, es[i + 1..]);
  }

  lemma {:induction false} SegmentGrows(slot: int, a: seq<Event>, b: seq<Event>)
    ensures Segment(slot, a) <= Segment(slot, a + b)
  {
    if b == [] {
      assert a + b == a;
    } else {
      var n := |b| - 1;
      SegmentGrows(slot, a, b[..n]);
      assert a + b == (a + b[..n]) + [b[n]];
      SegmentAppend(slot, a + b[..n], b[n]);
    }
  }

  lemma NoStarts(es: seq<Event>, slot: int)
    ensures Starts(es[..0], slot) == []
  {
  }

  lemma StartsNoMore(es: seq<Event>, n: nat, slot: int)
    requires n < |es| && !StartsOn(es[n], slot)
    ensures Starts(es[..n + 1], slot) == Starts(es[..n], slot)
  {
    assert es[..n + 1][..n] == es[..n];
  }

  /** Every row with a named start links to the Dispatch that owned its slot: its
      link names the latest child_start at or before it, which is what it finds
      however much was appended since (`a` empty), and after rotation has dropped
      `a` with the exceptions LinkOutcome states. */
  lemma HistoryLinksResolve(a: seq<Event>, b: seq<Event>, r: nat)
    requires r < |a + b| && (a + b)[r].slot.Some?
    requires Contiguous(Starts(a + b, (a + b)[r].slot.value))
    ensures var es, slot := a + b, (a + b)[r].slot.value;
            var k, owner := LatestStart(slot, es, r + 1), RowOwner(es, r);
      && (owner.Some? <==> k.Some?)
      && (owner.Some? ==> Query(slot, owner.value.started, owner.value.n) == Naming(slot, es, k.value))
      && (owner.Some? && owner.value.started != "" ==> LinkOutcome(slot, a, b, k.value))
  {
    hide Starts, LastKey, StartNAt, LinkOutcome, ClaimedAll;
    var es, slot := a + b, (a + b)[r].slot.value;
    var k := LatestStart(slot, es, r + 1);
    OwnerIsLatestStart(es[..r + 1], slot);
    StartsUpToLatest(slot, es, r + 1);
    if k.None? {
      NoKey();
    } else {
      LastKeyAtStart(slot, es, k.value);
      if es[k.value].time != "" {
        LinksAfterDrop(slot, a, b, k.value);
      }
    }
  }

  lemma NoKey()
    ensures LastKey([]) == None
  {
  }
}
