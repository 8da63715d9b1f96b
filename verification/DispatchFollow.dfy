/** Finding a Dispatch by its identity and following it as the Events file grows
    (dashboard/dispatch.go): one scan kept open, then pinned, agrees with
    rescanning everything. */
module DispatchFollows {
  import opened Options
  import opened Dispatches
  import opened DispatchViews

  /** Which Dispatch a query names; an empty `at` asks for the slot's latest. */
  datatype Query = Query(slot: int, at: string, n: nat)

  /** The event at `i` is a child_start the query names. */
  predicate Matches(q: Query, es: seq<Event>, i: nat)
    requires i < |es|
  {
    && StartsOn(es[i], q.slot)
    && (q.at == "" || LastKey(Starts(es[..i + 1], q.slot)) == Some(Key(q.at, q.n)))
  }

  lemma MatchesBefore(q: Query, a: seq<Event>, b: seq<Event>, i: nat)
    requires i < |a|
    ensures Matches(q, a + b, i) <==> Matches(q, a, i)
  {
    assert (a + b)[..i + 1] == a[..i + 1];
  }

  /** Where, among the first `k` events, the latest child_start the query names is. */
  function LastMatch(q: Query, es: seq<Event>, k: nat): (r: Option<nat>)
    requires k <= |es|
    ensures r.Some? ==> r.value < k && Matches(q, es, r.value)
    ensures forall i :: (r.Some? ==> r.value < i) && 0 <= i < k ==> !Matches(q, es, i)
  {
    if k == 0 then None
    else if Matches(q, es, k - 1) then Some(k - 1)
    else LastMatch(q, es, k - 1)
  }

  lemma {:induction false} LastMatchBefore(q: Query, a: seq<Event>, b: seq<Event>, k: nat)
    requires k <= |a|
    ensures LastMatch(q, a + b, k) == LastMatch(q, a, k)
  {
    if k > 0 {
      MatchesBefore(q, a, b, k - 1);
      LastMatchBefore(q, a, b, k - 1);
    }
  }

  predicate TakenOver(slot: int, es: seq<Event>) {
    exists i :: 0 <= i < |es| && StartsOn(es[i], slot)
  }

  /** What the slot reported before its next child_start. */
  function Segment(slot: int, es: seq<Event>): seq<Event> {
    if es == [] then []
    else
      var before, ev := es[..|es| - 1], es[|es| - 1];
      Segment(slot, before) +
      if ev.slot == Some(slot) && !TakenOver(slot, es) then [ev] else []
  }

  /** StartN of the child_start at `k`. */
  function StartNAt(slot: int, es: seq<Event>, k: nat): nat
    requires k < |es|
  {
    var key := LastKey(Starts(es[..k + 1], slot));
    if key.Some? then key.value.n else 0
  }

  /** The Dispatch that began at `k`, as a scan of all of `es` has it. */
  function HistoryAt(slot: int, es: seq<Event>, k: nat): History
    requires k < |es|
  {
    var later := es[k + 1..];
    History(slot, es[k], StartNAt(slot, es, k), Segment(slot, later), TakenOver(slot, later))
  }

  lemma TakenOverAppend(slot: int, es: seq<Event>, ev: Event)
    ensures TakenOver(slot, es + [ev]) <==> TakenOver(slot, es) || StartsOn(ev, slot)
  {
    if i :| 0 <= i < |es| && StartsOn(es[i], slot) {
      assert StartsOn((es + [ev])[i], slot);
    }
    if StartsOn(ev, slot) {
      assert StartsOn((es + [ev])[|es|], slot);
    }
  }

  lemma SegmentAppend(slot: int, es: seq<Event>, ev: Event)
    ensures Segment(slot, es + [ev]) == Segment(slot, es) +
      if ev.slot == Some(slot) && !TakenOver(slot, es + [ev]) then [ev] else []
  {
    assert (es + [ev])[..|es|] == es;
  }

  function Extended(h: History, ev: Event): History {
    if ev.slot != Some(h.slot) then h
    else if ev.what.ChildStart? then h.(taken := true)
    else if h.taken then h
    else h.(absorbed := h.absorbed + [ev])
  }

  /** One more event leaves an earlier child_start and its identity alone, and
      only adds to what followed it. */
  lemma HistoryAppend(slot: int, es: seq<Event>, ev: Event, k: nat)
    requires k < |es|
    ensures HistoryAt(slot, es + [ev], k) == Extended(HistoryAt(slot, es, k), ev)
  {
    assert (es + [ev])[..k + 1] == es[..k + 1];
    assert (es + [ev])[k + 1..] == es[k + 1..] + [ev];
    TakenOverAppend(slot, es[k + 1..], ev);
    SegmentAppend(slot, es[k + 1..], ev);
  }

  lemma HistoryBegins(slot: int, es: seq<Event>, ev: Event)
    requires StartsOn(ev, slot)
    ensures var key := LastKey(Starts(es + [ev], slot));
      key.Some? && HistoryAt(slot, es + [ev], |es|) == History(slot, ev, key.value.n, [], false)
  {
    assert (es + [ev])[..|es| + 1] == es + [ev];
    assert (es + [ev])[|es| + 1..] == [];
    assert (es + [ev])[..|es|] == es;
  }

  /** A follow in terms of values: the events folded, the generation each was read
      from, how many the scan read, the slot's latest identity, and the Dispatch
      found with the generation of its child_start. */
  datatype State = State(
    q: Query, events: seq<Event>, gens: seq<nat>, scanned: nat, pinned: bool,
    latest: Option<Key>, found: Option<History>, startGen: nat)

  /** The Dispatch found is the latest the query named when the scan ended, with
      everything its slot reported since. */
  ghost predicate Tracks(s: State) {
    && s.scanned <= |s.events| == |s.gens|
    && (!s.pinned ==> s.scanned == |s.events|)
    && s.latest == LastKey(Starts(s.events[..s.scanned], s.q.slot))
    && var k := LastMatch(s.q, s.events, s.scanned);
       && (s.found.None? <==> k.None?)
       && (k.Some? ==> s.found.value == HistoryAt(s.q.slot, s.events, k.value)
                       && s.startGen == s.gens[k.value])
  }

  function NextKey(latest: Option<Key>, ev: Event): Option<Key> {
    if !ev.what.ChildStart? then latest
    else Some(Key(ev.time, if latest.Some? && latest.value.started == ev.time then latest.value.n + 1 else 0))
  }

  function Folded(s: State, ev: Event, gen: nat): State {
    var scanned := s.scanned + if s.pinned then 0 else 1;
    var t := s.(events := s.events + [ev], gens := s.gens + [gen], scanned := scanned);
    if ev.slot != Some(s.q.slot) then t
    else
      var latest := if s.pinned then s.latest else NextKey(s.latest, ev);
      if ev.what.ChildStart? && !s.pinned && (s.q.at == "" || latest == Some(Key(s.q.at, s.q.n))) then
        t.(latest := latest, startGen := gen,
           found := Some(History(s.q.slot, ev, latest.value.n, [], false)))
      else
        t.(latest := latest, found := if s.found.Some? then Some(Extended(s.found.value, ev)) else None)
  }

  lemma NextKeyTracks(es: seq<Event>, ev: Event, slot: int)
    requires ev.slot == Some(slot)
    ensures NextKey(LastKey(Starts(es, slot)), ev) == LastKey(Starts(es + [ev], slot))
  {
    var key := LastKey(Starts(es, slot));
    var o: Owners := if key.Some? then map[slot := key.value] else map[];
    ClaimTracksStarts(o, es, ev, slot);
  }

  lemma FoldedTracks(s: State, ev: Event, gen: nat)
    requires Tracks(s)
    ensures Tracks(Folded(s, ev, gen))
  {
    if s.pinned {
      FoldedTracksPinned(s, ev, gen);
    } else {
      FoldedTracksScanning(s, ev, gen);
    }
  }

  lemma FoldedTracksPinned(s: State, ev: Event, gen: nat)
    requires Tracks(s) && s.pinned
    ensures Tracks(Folded(s, ev, gen))
  {
    hide LastKey, HistoryAt, Starts, NextKey, Extended, LastMatch, StartsOn;
    var k := LastMatch(s.q, s.events, s.scanned);
    LastMatchBefore(s.q, s.events, [ev], s.scanned);
    assert (s.events + [ev])[..s.scanned] == s.events[..s.scanned];
    if k.Some? {
      HistoryAppend(s.q.slot, s.events, ev, k.value);
      HistorySlot(s.q.slot, s.events, k.value);
      ExtendedElsewhere(s.found.value, ev);
    }
  }

  lemma HistorySlot(slot: int, es: seq<Event>, k: nat)
    requires k < |es|
    ensures HistoryAt(slot, es, k).slot == slot
  {
  }

  lemma KeyClaimed(o: Owners, ev: Event)
    ensures Lookup(Claimed(o, ev), ev.slot) == if ev.slot.Some? then NextKey(Lookup(o, ev.slot), ev) else None
    ensures ev.slot.Some? && ev.what.ChildStart? ==> NextKey(Lookup(o, ev.slot), ev).Some?
  {
  }

  lemma ExtendedElsewhere(h: History, ev: Event)
    ensures ev.slot != Some(h.slot) ==> Extended(h, ev) == h
  {
  }

  lemma FoldedTracksScanning(s: State, ev: Event, gen: nat)
    requires Tracks(s) && !s.pinned
    ensures Tracks(Folded(s, ev, gen))
  {
    hide LastKey, HistoryAt, Starts, NextKey, Extended, TakenOver, Segment;
    var es, k := s.events + [ev], LastMatch(s.q, s.events, s.scanned);
    assert s.events[..s.scanned] == s.events && es[..s.scanned + 1] == es;
    LastMatchBefore(s.q, s.events, [ev], s.scanned);
    assert LastMatch(s.q, es, s.scanned + 1) ==
           if Matches(s.q, es, s.scanned) then Some(s.scanned) else k;
    hide LastMatch;
    if k.Some? {
      HistoryAppend(s.q.slot, s.events, ev, k.value);
      HistorySlot(s.q.slot, s.events, k.value);
      ExtendedElsewhere(s.found.value, ev);
    }
    if ev.slot == Some(s.q.slot) {
      NextKeyTracks(s.events, ev, s.q.slot);
      if StartsOn(ev, s.q.slot) {
        HistoryBegins(s.q.slot, s.events, ev);
      }
    } else {
      NotOnSlot(s.events, ev, s.q.slot);
    }
  }

  lemma NotOnSlot(es: seq<Event>, ev: Event, slot: int)
    requires ev.slot != Some(slot)
    ensures Starts(es + [ev], slot) == Starts(es, slot)
  {
    assert (es + [ev])[..|es|] == es;
  }

  class DispatchFollow {
    const query: Query
    const owners: DispatchOwners
    var d: DispatchView?
    var cur: DispatchView?
    var startGen: nat
    var pinned: bool

    // What has been folded; see State.
    ghost var events: seq<Event>
    ghost var gens: seq<nat>
    ghost var scanned: nat

    constructor (q: Query)
      ensures Valid() && query == q && !pinned && fresh(Footprint())
      ensures events == [] && gens == [] && scanned == 0
    {
      query, d, cur, startGen, pinned := q, null, null, 0, false;
      owners := new DispatchOwners();
      events, gens, scanned := [], [], 0;
    }

    ghost function Footprint(): set<object>
      reads this
    {
      {this, owners} + if d != null then {d} else {}
    }

    ghost function Now(): State
      reads this, owners, d
    {
      State(query, events, gens, scanned, pinned,
            Lookup(owners.latest, Some(query.slot)),
            if d == null then None else Some(d.Stands()), startGen)
    }

    ghost predicate Valid()
      reads this, owners, d
    {
      && Tracks(Now())
      && cur == (if d == null || d.Stands().taken then null else d)
      && (d != null ==> d.Valid() && d.Stands().slot == query.slot)
    }

    /** Once two rotations have passed the generation holding the child_start,
        neither name on disk holds it. */
    predicate RotatedAway(tailGen: nat)
      reads this
    {
      tailGen - startGen >= 2
    }

    /** From here on no child_start can replace what was found. */
    method Pin()
      requires Valid()
      modifies this
      ensures Valid() && d == old(d) && Now() == old(Now()).(pinned := true)
    {
      pinned := true;
    }

    /** A child_start the query names becomes the Dispatch found. */
    method Begin(ev: Event, n: nat, gen: nat)
      modifies this`d, this`cur, this`startGen
      ensures d != null && fresh(d) && cur == d && startGen == gen
      ensures d.Valid() && d.slot == query.slot && d.Stands() == History(query.slot, ev, n, [], false)
    {
      hide DispatchView.Valid;
      cur := new DispatchView(query.slot, ev, n);
      d, startGen := cur, gen;
    }

    /** Fold one event in, read from the tail's generation `gen`. */
    method Fold(ev: Event, gen: nat)
      requires Valid()
      modifies Footprint()
      ensures Valid() && Now() == Folded(old(Now()), ev, gen)
      ensures d == old(d) || fresh(d)
      ensures pinned ==> d == old(d)
    {
      hide Tracks, DispatchView.Valid, DispatchView.Stands, DispatchView.Shown, Claimed, Lookup, NextKey;
      KeyClaimed(owners.latest, ev);
      FoldedTracks(Now(), ev, gen);
      events, gens := events + [ev], gens + [gen];
      scanned := if pinned then scanned else scanned + 1;
      if ev.slot != Some(query.slot) {
        return;
      }
      var key := None;
      if !pinned {
        key := owners.Claim(ev);
      }
      if !ev.what.ChildStart? {
        if cur != null {
          cur.Absorb(ev);
        }
        return;
      }
      if cur != null {
        cur.TakeOver();
      }
      cur := null;
      if !pinned && (query.at == "" || key == Some(Key(query.at, query.n))) {
        Begin(ev, key.value.n, gen);
      }
    }
  }
}
