/** Inferring the revision a record was dispatched at from the Daemon's box events
    (cmd/launcher/stats_events.go): each event goes to the claim nearest after it. */
module RevisionAttribution {
  import opened Options

  /** A time is an instant; `at` is absent when the event's text does not parse. */
  datatype Event = Event(box: bool, initial: bool, revision: string, verb: string, key: string, at: Option<int>)

  datatype Record = Record(id: string, kind: string, key: string, inferred: bool, revision: string, claim: int)

  datatype Box = Box(at: int, revision: string)

  datatype Dispatch = Dispatch(kind: string, key: string)

  /** The kind a verb names, if any. */
  type Kinds = string -> Option<string>

  /** The Dispatch an event announces, when it is a usable initial box event. */
  function Announces(kinds: Kinds, ev: Event): Option<Dispatch> {
    if !ev.box || !ev.initial || ev.revision == "" || kinds(ev.verb).None? || ev.at.None? then None
    else Some(Dispatch(kinds(ev.verb).value, ev.key))
  }

  /** The events announcing `d`, in file order. */
  function BoxesOf(kinds: Kinds, events: seq<Event>, d: Dispatch): seq<Box> {
    if events == [] then []
    else
      var ev := events[|events| - 1];
      BoxesOf(kinds, events[..|events| - 1], d) +
      if Announces(kinds, ev) == Some(d) then [Box(ev.at.value, ev.revision)] else []
  }

  /** `b` is one of the boxes, and no later one by `claim` is at its time or after. */
  ghost predicate LastAmongEqual(boxes: seq<Box>, claim: int, b: Box) {
    exists i {:trigger boxes[i]} :: 0 <= i < |boxes| && boxes[i] == b && EarlierAfter(boxes, i, claim, b.at)
  }

  ghost predicate EarlierAfter(boxes: seq<Box>, i: nat, claim: int, at: int) {
    forall j :: i < j < |boxes| && boxes[j].at <= claim ==> boxes[j].at < at
  }

  /** The latest box at or before `claim`; of several at one time, the last. */
  function Best(boxes: seq<Box>, claim: int): (r: Option<Box>)
    ensures r.None? <==> forall i :: 0 <= i < |boxes| ==> boxes[i].at > claim
    ensures r.Some? ==> r.value.at <= claim && LastAmongEqual(boxes, claim, r.value)
    ensures r.Some? ==> forall i :: 0 <= i < |boxes| && boxes[i].at <= claim ==> boxes[i].at <= r.value.at
  {
    if boxes == [] then None
    else
      var before, last := Best(boxes[..|boxes| - 1], claim), boxes[|boxes| - 1];
      if last.at <= claim && (before.None? || before.value.at <= last.at) then Some(last) else before
  }

  predicate Eligible(r: Record) {
    r.inferred && r.revision == ""
  }

  predicate SameDispatch(r: Record, d: Dispatch) {
    r.kind == d.kind && r.key == d.key
  }

  /** Another record of the Dispatch claimed at or after the event and before `r`. */
  predicate ClaimedBetween(records: seq<Record>, r: Record, at: int) {
    exists i :: 0 <= i < |records|
      && records[i].id != r.id && SameDispatch(records[i], Dispatch(r.kind, r.key))
      && at <= records[i].claim < r.claim
  }

  /** The revision `r` gets, if it gets one. */
  function Inferred(kinds: Kinds, records: seq<Record>, events: seq<Event>, r: Record): Option<Box> {
    var best := Best(BoxesOf(kinds, events, Dispatch(r.kind, r.key)), r.claim);
    if Eligible(r) && best.Some? && !ClaimedBetween(records, r, best.value.at) then best else None
  }

  function Filled(kinds: Kinds, records: seq<Record>, events: seq<Event>, r: Record): Record {
    var box := Inferred(kinds, records, events, r);
    if box.Some? then r.(revision := box.value.revision) else r
  }

  /** The events grouped by the Dispatch they announce. */
  method GroupBoxes(kinds: Kinds, events: seq<Event>) returns (boxes: map<Dispatch, seq<Box>>)
    ensures forall d :: BoxesOf(kinds, events, d) == if d in boxes then boxes[d] else []
  {
    boxes := map[];
    for i := 0 to |events|
      invariant forall d :: BoxesOf(kinds, events[..i], d) == if d in boxes then boxes[d] else []
    {
      assert events[..i + 1][..i] == events[..i];
      var d := Announces(kinds, events[i]);
      if d.None? {
        continue;
      }
      var known := if d.value in boxes then boxes[d.value] else [];
      boxes := boxes[d.value := known + [Box(events[i].at.value, events[i].revision)]];
    }
    assert events[..|events|] == events;
  }

  /** Fill the records in place. Every record ends as a function of what the
      records held before the call. */
  method FillInferredRevisions(kinds: Kinds, records: array<Record>, events: seq<Event>)
    modifies records
    ensures forall i :: 0 <= i < records.Length ==>
      records[i] == Filled(kinds, old(records[..]), events, old(records[i]))
  {
    hide Best, BoxesOf;
    var boxes := GroupBoxes(kinds, events);
    if boxes == map[] {
      NoBoxes(kinds, events, old(records[..]));
      return;
    }
    ghost var was := records[..];
    for i := 0 to records.Length
      invariant forall j :: 0 <= j < i ==> records[j] == Filled(kinds, was, events, was[j])
      invariant forall j :: i <= j < records.Length ==> records[j] == was[j]
    {
      hide Filled, ClaimedBetween;
      var r := records[i];
      FilledIs(kinds, was, events, r);
      if !r.inferred || r.revision != "" {
        continue;
      }
      var d := Dispatch(r.kind, r.key);
      var best := FindBest(if d in boxes then boxes[d] else [], r.claim);
      if best.None? {
        continue;
      }
      ghost var now := records[..];
      SameClaims(kinds, was, now, events, i, r, best.value.at);
      var earlier := FindBetween(records, r, best.value.at);
      if !earlier {
        records[i] := r.(revision := best.value.revision);
      }
    }
  }

  lemma NoBoxes(kinds: Kinds, events: seq<Event>, records: seq<Record>)
    requires forall d :: BoxesOf(kinds, events, d) == []
    ensures forall i :: 0 <= i < |records| ==> Filled(kinds, records, events, records[i]) == records[i]
  {
  }

  lemma FilledIs(kinds: Kinds, records: seq<Record>, events: seq<Event>, r: Record)
    ensures var best := Best(BoxesOf(kinds, events, Dispatch(r.kind, r.key)), r.claim);
      Filled(kinds, records, events, r) ==
        if Eligible(r) && best.Some? && !ClaimedBetween(records, r, best.value.at)
        then r.(revision := best.value.revision) else r
  {
  }

  /** Filling a revision changes no claim, so records filled earlier still count as
      they did. */
  lemma {:induction false} SameClaims(kinds: Kinds, was: seq<Record>, now: seq<Record>, events: seq<Event>, i: nat,
                                      r: Record, at: int)
    requires |was| == |now| && i <= |was|
    requires forall j :: 0 <= j < i ==> now[j] == Filled(kinds, was, events, was[j])
    requires forall j :: i <= j < |was| ==> now[j] == was[j]
    ensures ClaimedBetween(now, r, at) <==> ClaimedBetween(was, r, at)
  {
    forall j | 0 <= j < |was|
      ensures now[j].id == was[j].id && now[j].claim == was[j].claim
      ensures now[j].kind == was[j].kind && now[j].key == was[j].key
    {
      hide Inferred;
    }
  }

  method FindBest(boxes: seq<Box>, claim: int) returns (best: Option<Box>)
    ensures best == Best(boxes, claim)
  {
    best := None;
    for j := 0 to |boxes|
      invariant best == Best(boxes[..j], claim)
    {
      assert boxes[..j + 1][..j] == boxes[..j];
      var b := boxes[j];
      if b.at <= claim && (best.None? || best.value.at <= b.at) {
        best := Some(b);
      }
    }
    assert boxes[..|boxes|] == boxes;
  }

  method FindBetween(records: array<Record>, r: Record, at: int) returns (earlier: bool)
    ensures earlier <==> ClaimedBetween(records[..], r, at)
  {
    for i := 0 to records.Length
      invariant !ClaimedBetween(records[..i], r, at)
    {
      var o := records[i];
      if o.id != r.id && SameDispatch(o, Dispatch(r.kind, r.key)) && at <= o.claim < r.claim {
        assert records[..][i] == o;
        return true;
      }
    }
    assert records[..records.Length] == records[..];
    return false;
  }

  ghost predicate DistinctIDs(records: seq<Record>) {
    forall i, j :: 0 <= i < j < |records| ==> records[i].id != records[j].id
  }

  /** The event announced `r`'s Dispatch: a Box's initial phase, at a known revision
      and time, under the record's kind and key. */
  predicate IsFor(kinds: Kinds, ev: Event, r: Record) {
    && ev.box && ev.initial && ev.revision != "" && ev.at.Some?
    && kinds(ev.verb) == Some(r.kind) && ev.key == r.key
  }

  /** The latest of the events for `r` at or before its claim; of several at one
      time, the last. */
  ghost predicate Nearest(kinds: Kinds, events: seq<Event>, r: Record, j: nat) {
    && j < |events| && IsFor(kinds, events[j], r) && events[j].at.value <= r.claim
    && forall i :: 0 <= i < |events| && IsFor(kinds, events[i], r) && events[i].at.value <= r.claim ==>
         events[i].at.value <= events[j].at.value && (i > j ==> events[i].at.value < events[j].at.value)
  }

  function BoxFor(kinds: Kinds, ev: Event, r: Record): Box
    requires IsFor(kinds, ev, r)
  {
    Box(ev.at.value, ev.revision)
  }

  /** One more event is the best one if it is for `r`, in time, and not before the
      best so far. */
  lemma {:induction false} BestOfOneMore(kinds: Kinds, events: seq<Event>, ev: Event, r: Record)
    ensures var was := Best(BoxesOf(kinds, events, Dispatch(r.kind, r.key)), r.claim);
      Best(BoxesOf(kinds, events + [ev], Dispatch(r.kind, r.key)), r.claim) ==
        if IsFor(kinds, ev, r) && ev.at.value <= r.claim && (was.None? || was.value.at <= ev.at.value)
        then Some(BoxFor(kinds, ev, r)) else was
  {
    var boxes := BoxesOf(kinds, events, Dispatch(r.kind, r.key));
    assert (events + [ev])[..|events|] == events;
    if IsFor(kinds, ev, r) {
      assert (boxes + [BoxFor(kinds, ev, r)])[..|boxes|] == boxes;
    } else {
      assert boxes + [] == boxes;
    }
  }

  /** `best` is the nearest event's box, if any event is in time. */
  ghost predicate IsNearestBox(kinds: Kinds, events: seq<Event>, r: Record, best: Option<Box>) {
    if best.None? then forall i :: 0 <= i < |events| && IsFor(kinds, events[i], r) ==> events[i].at.value > r.claim
    else exists j: nat :: Nearest(kinds, events, r, j) && best.value == BoxFor(kinds, events[j], r)
  }

  lemma {:induction false} NearestOfOneMore(kinds: Kinds, events: seq<Event>, ev: Event, r: Record, was: Option<Box>)
    requires IsNearestBox(kinds, events, r, was)
    ensures IsNearestBox(kinds, events + [ev], r,
                         if IsFor(kinds, ev, r) && ev.at.value <= r.claim && (was.None? || was.value.at <= ev.at.value)
                         then Some(BoxFor(kinds, ev, r)) else was)
  {
    var n, now := |events|, events + [ev];
    assert forall i :: 0 <= i < n ==> now[i] == events[i];
    if IsFor(kinds, ev, r) && ev.at.value <= r.claim && (was.None? || was.value.at <= ev.at.value) {
      assert Nearest(kinds, now, r, n);
    } else if was.Some? {
      var j: nat :| Nearest(kinds, events, r, j) && was.value == BoxFor(kinds, events[j], r);
      assert Nearest(kinds, now, r, j);
    }
  }

  /** The best box is the nearest event's. */
  lemma {:induction false} BestIsNearest(kinds: Kinds, events: seq<Event>, r: Record)
    ensures IsNearestBox(kinds, events, r, Best(BoxesOf(kinds, events, Dispatch(r.kind, r.key)), r.claim))
  {
    if events != [] {
      var before, ev := events[..|events| - 1], events[|events| - 1];
      hide Best, BoxesOf, IsNearestBox;
      BestIsNearest(kinds, before, r);
      BestOfOneMore(kinds, before, ev, r);
      NearestOfOneMore(kinds, before, ev, r, Best(BoxesOf(kinds, before, Dispatch(r.kind, r.key)), r.claim));
      assert before + [ev] == events;
    }
  }

  /** The event at `j` and the record `r` are nearest to each other: no other event of
      the record's Dispatch lies between them, and no other record of it claims
      between them. */
  ghost predicate MutuallyNearest(kinds: Kinds, records: seq<Record>, events: seq<Event>, r: Record, j: nat) {
    && Nearest(kinds, events, r, j)
    && NoneClaimsBetween(records, r, events[j].at.value)
  }

  ghost predicate NoneClaimsBetween(records: seq<Record>, r: Record, at: int) {
    forall i :: 0 <= i < |records| && records[i].kind == r.kind && records[i].key == r.key ==>
      records[i].claim < at || r.claim <= records[i].claim
  }

  /** A record is changed exactly when its revision is to be inferred, is not known,
      and some event and it are mutually nearest; and then only to have that event's
      revision. */
  lemma {:induction false} FilledIffMutuallyNearest(kinds: Kinds, records: seq<Record>, events: seq<Event>, i: nat)
    requires i < |records| && DistinctIDs(records)
    ensures var r := records[i]; var f := Filled(kinds, records, events, r);
      && (f != r <==> r.inferred && r.revision == "" && exists j: nat :: MutuallyNearest(kinds, records, events, r, j))
      && (forall j: nat :: f != r && MutuallyNearest(kinds, records, events, r, j) ==>
            f == r.(revision := events[j].revision))
  {
    hide Inferred, MutuallyNearest, IsFor;
    var r := records[i];
    if Eligible(r) {
      InferredIffMutuallyNearest(kinds, records, events, i);
      EventsAreFor(kinds, records, events, r);
    } else {
      NotInferred(kinds, records, events, r);
    }
  }

  lemma NotInferred(kinds: Kinds, records: seq<Record>, events: seq<Event>, r: Record)
    requires !Eligible(r)
    ensures Inferred(kinds, records, events, r).None?
  {
  }

  lemma EventsAreFor(kinds: Kinds, records: seq<Record>, events: seq<Event>, r: Record)
    ensures forall j: nat :: MutuallyNearest(kinds, records, events, r, j) ==>
              j < |events| && IsFor(kinds, events[j], r) && events[j].revision != ""
  {
  }

  lemma {:induction false} InferredIffMutuallyNearest(kinds: Kinds, records: seq<Record>, events: seq<Event>, i: nat)
    requires i < |records| && DistinctIDs(records) && Eligible(records[i])
    ensures var r := records[i]; var got := Inferred(kinds, records, events, r);
      && (got.Some? <==> exists j: nat :: MutuallyNearest(kinds, records, events, r, j))
      && (forall j: nat :: MutuallyNearest(kinds, records, events, r, j) ==> got == Some(BoxFor(kinds, events[j], r)))
  {
    var r := records[i];
    var best := Best(BoxesOf(kinds, events, Dispatch(r.kind, r.key)), r.claim);
    BestIsNearest(kinds, events, r);
    InferredIs(kinds, records, events, i, best);
    NearestDecides(kinds, records, events, r, best);
    hide *;
  }

  lemma InferredIs(kinds: Kinds, records: seq<Record>, events: seq<Event>, i: nat, best: Option<Box>)
    requires i < |records| && DistinctIDs(records) && Eligible(records[i])
    requires best == Best(BoxesOf(kinds, events, Dispatch(records[i].kind, records[i].key)), records[i].claim)
    ensures Inferred(kinds, records, events, records[i]) ==
              if best.Some? && NoneClaimsBetween(records, records[i], best.value.at) then best else None
  {
    hide BoxesOf, Best, NoneClaimsBetween, ClaimedBetween;
    if best.Some? {
      NotBetweenIff(records, i, best.value.at);
    }
  }

  lemma {:induction false} NearestDecides(kinds: Kinds, records: seq<Record>, events: seq<Event>, r: Record, best: Option<Box>)
    requires IsNearestBox(kinds, events, r, best)
    ensures var filled := best.Some? && NoneClaimsBetween(records, r, best.value.at);
      && (filled <==> exists j: nat :: MutuallyNearest(kinds, records, events, r, j))
      && (forall j: nat :: MutuallyNearest(kinds, records, events, r, j) ==> best == Some(BoxFor(kinds, events[j], r)))
  {
    hide IsFor, NoneClaimsBetween;
    if best.Some? {
      var j: nat :| Nearest(kinds, events, r, j) && best.value == BoxFor(kinds, events[j], r);
      NearestIsOne(kinds, events, r, j);
      assert MutuallyNearest(kinds, records, events, r, j) <==> NoneClaimsBetween(records, r, best.value.at);
    }
  }

  lemma NearestIsOne(kinds: Kinds, events: seq<Event>, r: Record, j: nat)
    requires Nearest(kinds, events, r, j)
    ensures forall i: nat :: Nearest(kinds, events, r, i) ==> i == j
  {
  }

  lemma {:induction false} NotBetweenIff(records: seq<Record>, i: nat, at: int)
    requires i < |records| && DistinctIDs(records)
    ensures !ClaimedBetween(records, records[i], at) <==> NoneClaimsBetween(records, records[i], at)
  {
    forall k | 0 <= k < |records| && k != i ensures records[k].id != records[i].id {
    }
  }

  /** No event serves two different claim times. */
  lemma {:induction false} OneClaimTimePerEvent(kinds: Kinds, records: seq<Record>, events: seq<Event>, i: nat, j: nat, e: Box)
    requires i < |records| && j < |records| && DistinctIDs(records)
    requires SameDispatch(records[i], Dispatch(records[j].kind, records[j].key))
    requires Inferred(kinds, records, events, records[i]) == Some(e)
    requires Inferred(kinds, records, events, records[j]) == Some(e)
    ensures records[i].claim == records[j].claim
  {
    InferredIffMutuallyNearest(kinds, records, events, i);
    InferredIffMutuallyNearest(kinds, records, events, j);
  }

  /** What a record gets does not depend on the order the records are in. */
  lemma {:induction false} OrderDoesNotMatter(kinds: Kinds, a: seq<Record>, b: seq<Record>, events: seq<Event>, r: Record)
    requires forall x :: x in a <==> x in b
    ensures Filled(kinds, a, events, r) == Filled(kinds, b, events, r)
  {
    forall at ensures ClaimedBetween(a, r, at) <==> ClaimedBetween(b, r, at) {
      ClaimedIn(a, b, r, at);
      ClaimedIn(b, a, r, at);
    }
  }

  lemma {:induction false} ClaimedIn(a: seq<Record>, b: seq<Record>, r: Record, at: int)
    requires forall x :: x in a ==> x in b
    ensures ClaimedBetween(a, r, at) ==> ClaimedBetween(b, r, at)
  {
    if ClaimedBetween(a, r, at) {
      var i :| 0 <= i < |a| && a[i].id != r.id && SameDispatch(a[i], Dispatch(r.kind, r.key)) && at <= a[i].claim < r.claim;
      assert a[i] in b;
      var j :| 0 <= j < |b| && b[j] == a[i];
      assert SameDispatch(b[j], Dispatch(r.kind, r.key));
    }
  }
}
