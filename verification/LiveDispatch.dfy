/** The drill-in page's follow, tail and fold together (dashboard/dispatch.go): one
    scan that finds a Dispatch, then polls that fold in what the Events file gained,
    each event under the generation number it is read under. */
module LiveDispatches {
  import opened Lines
  import opened EventsDirectory
  import opened Options
  import opened EventsTail
  import opened TailDelivery
  import opened TailRuns
  import opened Dispatches
  import opened DispatchViews
  import opened DispatchFollows
  import opened FollowTheorems
  import opened LiveFollow

  lemma FoldedAllNext(s: State, es: seq<Event>, gens: seq<nat>, ev: Event, gen: nat)
    requires |es| == |gens|
    ensures FoldedAll(s, es + [ev], gens + [gen]) == Folded(FoldedAll(s, es, gens), ev, gen)
  {
    assert (es + [ev])[..|es|] == es && (gens + [gen])[..|es|] == gens;
  }

  lemma FoldedKeepsPinned(s: State, ev: Event, gen: nat)
    ensures Folded(s, ev, gen).pinned == s.pinned
  {
  }

  lemma NoneFolded(s: State, decode: Bytes -> Option<Event>, lines: seq<Bytes>, gen: nat)
    ensures var es := Decode(decode, lines[..0]);
      FoldedAll(s, es, Times(gen, |es|)) == s
  {
  }

  lemma TimesNext(gen: nat, n: nat)
    ensures Times(gen, n) + [gen] == Times(gen, n + 1)
  {
  }

  lemma NoMoreEvents(es: seq<Event>)
    ensures es + [] == es
  {
  }

  lemma {:induction false} FoldedAllIs(s: State, es: seq<Event>, gens: seq<nat>)
    requires |es| == |gens|
    ensures var t := FoldedAll(s, es, gens);
      t.events == s.events + es && t.gens == s.gens + gens && t.q == s.q && t.pinned == s.pinned
      && t.scanned == s.scanned + if s.pinned then 0 else |es|
  {
    if es != [] {
      FoldedAllIs(s, es[..|es| - 1], gens[..|es| - 1]);
    }
  }

  lemma DecodeNext(decode: Bytes -> Option<Event>, lines: seq<Bytes>, i: nat)
    requires i < |lines|
    ensures Decode(decode, lines[..i + 1]) == Decode(decode, lines[..i]) +
      if decode(lines[i]).Some? then [decode(lines[i]).value] else []
  {
    assert lines[..i + 1][..i] == lines[..i];
  }

  /** Folding one more batch keeps the events and generations those of the lines. */
  lemma {:induction false} DecodeBatch(decode: Bytes -> Option<Event>, lines: seq<Bytes>, tags: seq<nat>,
                                       out: seq<Bytes>, gen: nat)
    requires |lines| == |tags|
    ensures Decode(decode, lines + out) == Decode(decode, lines) + Decode(decode, out)
    ensures DecodeTags(decode, lines + out, tags + Times(gen, |out|)) ==
            DecodeTags(decode, lines, tags) + Times(gen, |Decode(decode, out)|)
  {
    hide Decode, DecodeTags;
    DecodeAppend(decode, lines, out);
    DecodeTagsAppend(decode, lines, tags, out, Times(gen, |out|));
    DecodeTimes(decode, out, gen);
  }

  lemma OneTagALine(d: Dir, r: Reader)
    requires Attributed(d, r)
    ensures |r.tags| == |r.lines|
  {
  }

  lemma {:induction false} DecodeOpened(decode: Bytes -> Option<Event>, out0: seq<Bytes>, out1: seq<Bytes>)
    ensures Decode(decode, out0 + out1) == [] + Decode(decode, out0) + Decode(decode, out1)
    ensures |Times(0, |out0|) + Times(1, |out1|)| == |out0 + out1|
    ensures DecodeTags(decode, out0 + out1, Times(0, |out0|) + Times(1, |out1|)) ==
            [] + Times(0, |Decode(decode, out0)|) + Times(1, |Decode(decode, out1)|)
  {
    hide Decode, DecodeTags;
    DecodeTimes(decode, out0, 0);
    DecodeBatch(decode, out0, Times(0, |out0|), out1, 1);
  }

  lemma OpenedFresh(d: Dir, o: Opening, r: Reader)
    requires Opens(o) && o.d1 == d && o.d2 == d && StartsFrom(o, r) && r.done == []
    requires !o.cur.OpenFailed? && !o.named.OpenFailed? && o.compared && (r.older.Some? ==> r.olderWhole)
    requires CaughtUpSince(d, d, r)
    ensures FreshIn(d, r)
  {
    hide CaughtUpSince, Evolves;
    StartsInOrderIff(o, r);
    StartInOrder(r);
  }

  class LiveDispatch {
    const tail: Tail
    const follow: DispatchFollow
    const decode: Bytes -> Option<Event>

    constructor (q: Query, disk: Directory, decode: Bytes -> Option<Event>)
      ensures Unopened() && tail.disk == disk && follow.query == q && this.decode == decode
      ensures fresh(tail) && fresh(follow.Footprint())
    {
      tail := new Tail(disk);
      follow := new DispatchFollow(q);
      this.decode := decode;
    }

    ghost predicate Unopened()
      reads this, tail, follow, follow.owners, follow.d
    {
      && tail.Unopened() && follow.Valid()
      && follow.events == [] && follow.gens == [] && !follow.pinned && follow.scanned == 0
    }

    /** What was folded is what the tail handed out, decoded, event by event under
        the generation it was handed out under. */
    ghost predicate Valid()
      reads this, tail, tail.disk, follow, follow.owners, follow.d
    {
      && tail.Valid() && follow.Valid()
      && Attributed(tail.disk.dir, tail.reader)
      && follow.events == Decode(decode, tail.reader.lines)
      && follow.gens == DecodeTags(decode, tail.reader.lines, tail.reader.tags)
    }

    /** fold, of each line that decodes to an event. */
    method FoldLines(lines: seq<Bytes>, gen: nat)
      requires follow.Valid()
      modifies follow.Footprint()
      ensures follow.Valid() && fresh(follow.Footprint() - old(follow.Footprint()))
      ensures var es := Decode(decode, lines);
        && follow.Now() == FoldedAll(old(follow.Now()), es, Times(gen, |es|))
        && follow.events == old(follow.events) + es
        && follow.gens == old(follow.gens) + Times(gen, |es|)
        && follow.pinned == old(follow.pinned)
        && follow.scanned == old(follow.scanned) + if follow.pinned then 0 else |es|
      ensures follow.pinned ==> follow.d == old(follow.d)
    {
      hide DispatchFollow.Valid, Folded, FoldedAll, Decode, Times;
      ghost var s := follow.Now();
      NoneFolded(s, decode, lines, gen);
      for i := 0 to |lines|
        invariant follow.Valid() && fresh(follow.Footprint() - old(follow.Footprint()))
        invariant follow.pinned == old(follow.pinned) && (follow.pinned ==> follow.d == old(follow.d))
        invariant var es := Decode(decode, lines[..i]);
          follow.Now() == FoldedAll(s, es, Times(gen, |es|))
      {
        ghost var es := Decode(decode, lines[..i]);
        DecodeNext(decode, lines, i);
        var ev := decode(lines[i]);
        if ev.Some? {
          FoldedAllNext(s, es, Times(gen, |es|), ev.value, gen);
          TimesNext(gen, |es|);
          FoldedKeepsPinned(follow.Now(), ev.value, gen);
          follow.Fold(ev.value, gen);
        } else {
          NoMoreEvents(es);
        }
      }
      assert lines[..|lines|] == lines;
      FoldedAllIs(s, Decode(decode, lines), Times(gen, |Decode(decode, lines)|));
    }

    /** followDispatch: the scan that finds the Dispatch, after which it is pinned;
        `o` is what the tail's open found. */
    method Open() returns (err: Outcome, ghost o: Opening)
      requires Unopened() && tail.disk.Valid()
      modifies tail, tail.disk, follow.Footprint()
      ensures Valid() && follow.pinned && follow.scanned == |follow.events|
      ensures fresh(follow.Footprint() - old(follow.Footprint()))
      ensures Opens(o) && Evolves(old(tail.disk.dir), o.d1) && Evolves(o.d2, tail.disk.dir)
      ensures StartsFrom(o, tail.reader) && tail.reader.done == []
      ensures err.Ok? ==> (tail.reader.older.Some? ==> tail.reader.olderWhole)
      ensures tail.disk.reliable ==> err.Ok? && o.compared
      ensures tail.disk.reliable && old(tail.disk.script) == [] ==> FreshIn(tail.disk.dir, tail.reader)
      ensures old(tail.disk.script) == [] ==> tail.disk.dir == old(tail.disk.dir)
      ensures tail.disk.descriptors == old(tail.disk.descriptors) + tail.Mine()
    {
      hide DispatchFollow.Valid, Sound, StartsInOrder, AtMostOneFull, Evolves, WellFormed, Attributed, Decode,
           DecodeTags, Times, CaughtUpSince, InOrder, At, Tracks, Opens, StartsFrom;
      var out0, out1;
      out0, out1, err, o := tail.Open();
      OpenedAttributed(tail.disk.dir, tail.reader, out0, out1);
      if tail.disk.reliable && old(tail.disk.script) == [] {
        OpenedFresh(tail.disk.dir, o, tail.reader);
      }
      FoldScan(out0, out1);
    }

    /** The scan's events, then its end. */
    method FoldScan(out0: seq<Bytes>, out1: seq<Bytes>)
      requires follow.Valid() && follow.events == [] && follow.gens == [] && !follow.pinned && follow.scanned == 0
      modifies follow.Footprint()
      ensures follow.Valid() && follow.pinned && follow.scanned == |follow.events|
      ensures fresh(follow.Footprint() - old(follow.Footprint()))
      ensures follow.events == Decode(decode, out0 + out1)
      ensures |Times(0, |out0|) + Times(1, |out1|)| == |out0 + out1|
      ensures follow.gens == DecodeTags(decode, out0 + out1, Times(0, |out0|) + Times(1, |out1|))
    {
      hide DispatchFollow.Valid, Decode, DecodeTags, Times, FoldedAll;
      FoldLines(out0, 0);
      FoldLines(out1, 1);
      follow.Pin();
      DecodeOpened(decode, out0, out1);
    }

    /** poll: folds in what the Events file gained. `at` is the directory in which
        the tail opened the path. */
    method Poll() returns (err: Outcome, ghost at: Dir)
      requires Valid() && follow.pinned
      modifies tail, tail.disk, follow.Footprint()
      ensures Valid() && follow.pinned && follow.scanned == old(follow.scanned) && follow.d == old(follow.d)
      ensures fresh(follow.Footprint() - old(follow.Footprint()))
      ensures old(follow.events) <= follow.events
      ensures WellFormed(at) && Evolves(old(tail.disk.dir), at) && Evolves(at, tail.disk.dir)
      ensures InOrder(tail.reader) <==>
              old(InOrder(tail.reader)) && (tail.f != old(tail.f) ==> StillNamed(at, old(tail.reader)))
      ensures err.Ok? ==> CaughtUpSince(old(tail.disk.dir), tail.disk.dir, tail.reader)
      ensures err.Ok? ==> Follows(at, old(tail.reader), tail.reader)
      ensures tail.disk.reliable ==> err.Ok?
    {
      hide DispatchFollow.Valid, Folded, Sound, StillNamed, Evolves, WellFormed, Attributed, Decode, DecodeTags,
           FoldedAll, InOrder, Tracks, CaughtUpSince, Held, Follows;
      ghost var d0, r := tail.disk.dir, tail.reader;
      var gen := tail.gen;
      var before, after;
      before, after, err, at := tail.Poll();
      PolledAttributed(d0, tail.disk.dir, r, tail.reader, before, after);
      DaemonKeepsReaderSound(d0, at, r);
      PollKeepsOrderIff(at, r, tail.reader, before, after);
      OneTagALine(d0, r);
      FoldPolled(before, gen, after, tail.gen);
      DecodeBatch(decode, r.lines, r.tags, before, gen);
      DecodeBatch(decode, r.lines + before, r.tags + Times(gen, |before|), after, tail.gen);
    }

    /** The two batches of one poll. */
    method FoldPolled(before: seq<Bytes>, gen: nat, after: seq<Bytes>, next: nat)
      requires follow.Valid() && follow.pinned
      modifies follow.Footprint()
      ensures follow.Valid() && follow.pinned && follow.scanned == old(follow.scanned) && follow.d == old(follow.d)
      ensures fresh(follow.Footprint() - old(follow.Footprint()))
      ensures follow.events == old(follow.events) + Decode(decode, before) + Decode(decode, after)
      ensures follow.gens ==
              old(follow.gens) + Times(gen, |Decode(decode, before)|) + Times(next, |Decode(decode, after)|)
    {
      hide DispatchFollow.Valid, FoldedAll, Decode, Times;
      FoldLines(before, gen);
      FoldLines(after, next);
    }

    /** Where among the events folded the child_start of the Dispatch found is. */
    ghost function Start(): (k: nat)
      requires follow.Valid() && follow.d != null
      reads this, follow, follow.owners, follow.d
      ensures k < |follow.events|
    {
      LastMatch(follow.query, follow.events, follow.scanned).value
    }

    /** rotatedAway, exactly: `id` is the file the child_start was read from. */
    method RotatedAway() returns (away: bool, ghost id: FileId)
      requires Valid() && follow.d != null && tail.f.Some? && OlderFirst(tail.reader)
      ensures away == follow.RotatedAway(tail.gen)
      ensures var j := LineOf(decode, tail.reader.lines, Start());
        id == Sources(tail.disk.dir, tail.reader)[j]
      ensures (away <==> id !in tail.reader.seen.Values) <==>
              !(tail.gen - follow.startGen == 1 && id + 1 < tail.f.value)
      ensures InOrder(tail.reader) ==> (away <==> id !in tail.reader.seen.Values)
    {
      hide Sound, Attributed, Decode, DecodeTags, InOrder, OlderFirst, LineOf, Sources, Tracks, Delivered;
      id := RotatedAwayOfFollow(tail.disk.dir, tail.reader, follow.Now(), decode);
      away := follow.RotatedAway(tail.gen);
    }
  }

  /** What the page shows of its child_start is the identity that names it. */
  lemma NamesItself(s: State)
    requires Tracks(s) && s.found.Some?
    ensures var k, v := LastMatch(s.q, s.events, s.scanned).value, MeaningOf(s.found.value);
      v.started == s.found.value.start.time && Query(s.q.slot, v.started, v.startN) == Naming(s.q.slot, s.events, k)
  {
    hide LastKey, Starts, Segment, TakenOver;
  }

  /** What a page shows, if its scan found a Dispatch. */
  function Showing(page: LiveDispatch): Option<View>
    reads page, page.follow, page.follow.d
  {
    if page.follow.d == null then None else Some(page.follow.d.Shown())
  }

  /** A reload of a caught-up page, in a quiet directory with nothing failing: a new
      follow of the identity the page shows. */
  method Reload(page: LiveDispatch) returns (again: LiveDispatch)
    requires page.Valid() && page.follow.pinned && page.follow.d != null && page.follow.d.started != ""
    requires page.tail.disk.reliable && page.tail.disk.script == []
    requires InOrder(page.tail.reader) && CaughtUpSince(page.tail.disk.dir, page.tail.disk.dir, page.tail.reader)
    requires CurrentName in page.tail.disk.dir.at && page.tail.f == At(page.tail.disk.dir, CurrentName)
    requires First(page.tail.reader) <= Oldest(page.tail.disk.dir)
    requires Contiguous(Starts(page.follow.events, page.follow.query.slot))
    modifies page.tail.disk
    ensures page.Valid() && again.Valid()
    ensures ReloadOutcome(page.follow.Now(), page.tail.gen, again.follow.Now())
    ensures Showing(page) == Some(MeaningOf(page.follow.Now().found.value))
    ensures var found := again.follow.Now().found;
      Showing(again) == if found.None? then None else Some(MeaningOf(found.value))
  {
    hide Sound, Attributed, Decode, DecodeTags, Contiguous, Starts, CountsAcross, CaughtUpSince, InOrder, Folded,
         MeaningOf, Tracks, ReloadOutcome, LastMatch, Naming, Oldest, First, At, FreshIn;
    ghost var d, s := page.tail.disk.dir, page.follow.Now();
    NamesItself(s);
    again := new LiveDispatch(Query(page.follow.query.slot, page.follow.d.started, page.follow.d.startN),
                              page.tail.disk, page.decode);
    var err;
    ghost var o;
    err, o := again.Open();
    ReloadShows(d, page.tail.reader, s, again.tail.reader, again.follow.Now(), page.decode);
  }
}
