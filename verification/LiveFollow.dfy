/** Following a Dispatch over the tailed Events file, end to end: the tail's lines,
    the events they decode to, the generation each was read from, and what a reload
    would show, whatever rotation has dropped meanwhile. */
module LiveFollow {
  import opened Lines
  import opened EventsDirectory
  import opened Options
  import opened EventsTail
  import opened TailDelivery
  import opened TailRuns
  import opened Dispatches
  import opened DispatchViews
  import opened DispatchFollows
  import opened FollowTheorems

  /** The events of the well-formed lines, in order. */
  function Decode(decode: Bytes -> Option<Event>, lines: seq<Bytes>): seq<Event> {
    if lines == [] then []
    else
      var ev := decode(lines[|lines| - 1]);
      Decode(decode, lines[..|lines| - 1]) + if ev.Some? then [ev.value] else []
  }

  /** The tags of the well-formed lines. */
  function DecodeTags(decode: Bytes -> Option<Event>, lines: seq<Bytes>, tags: seq<nat>): seq<nat>
    requires |tags| == |lines|
  {
    if lines == [] then []
    else
      var n := |lines| - 1;
      DecodeTags(decode, lines[..n], tags[..n]) + if decode(lines[n]).Some? then [tags[n]] else []
  }

  /** The line the k-th event was decoded from. */
  function LineOf(decode: Bytes -> Option<Event>, lines: seq<Bytes>, k: nat): (j: nat)
    requires k < |Decode(decode, lines)|
    ensures j < |lines| && decode(lines[j]) == Some(Decode(decode, lines)[k])
  {
    var n := |lines| - 1;
    if k < |Decode(decode, lines[..n])| then LineOf(decode, lines[..n], k) else n
  }

  lemma {:induction false} TagOfLine(decode: Bytes -> Option<Event>, lines: seq<Bytes>, tags: seq<nat>, k: nat)
    requires |tags| == |lines|
    ensures |DecodeTags(decode, lines, tags)| == |Decode(decode, lines)|
    ensures k < |Decode(decode, lines)| ==> DecodeTags(decode, lines, tags)[k] == tags[LineOf(decode, lines, k)]
  {
    if lines != [] {
      var n := |lines| - 1;
      TagOfLine(decode, lines[..n], tags[..n], k);
    }
  }

  lemma {:induction false} DecodeAppend(decode: Bytes -> Option<Event>, x: seq<Bytes>, y: seq<Bytes>)
    ensures Decode(decode, x + y) == Decode(decode, x) + Decode(decode, y)
  {
    if y == [] {
      assert x + y == x;
    } else {
      var n := |y| - 1;
      DecodeAppend(decode, x, y[..n]);
      assert (x + y)[..|x| + n] == x + y[..n];
    }
  }

  lemma {:induction false} LineAcross(decode: Bytes -> Option<Event>, x: seq<Bytes>, y: seq<Bytes>, k: nat)
    requires k < |Decode(decode, x + y)|
    ensures LineOf(decode, x + y, k) < |x| <==> k < |Decode(decode, x)|
  {
    DecodeAppend(decode, x, y);
    if y == [] {
      assert x + y == x;
    } else {
      var n := |y| - 1;
      assert (x + y)[..|x| + n] == x + y[..n];
      DecodeAppend(decode, x, y[..n]);
      if k < |Decode(decode, x + y[..n])| {
        LineAcross(decode, x, y[..n], k);
      }
    }
  }

  /** Two readers that began at the same generation and have reached the same place
      have handed out the same lines, whatever polls each made on the way. */
  lemma {:induction false} SameStreamSameLines(d: Dir, r: Reader, s: Reader)
    requires Sound(d, r) && InOrder(r) && r.f.Some?
    requires Sound(d, s) && InOrder(s)
    requires r.f == s.f && r.offset == s.offset && First(r) == First(s)
    ensures r.lines == s.lines
  {
    hide Sound, InOrder, Stream, First;
    ExactlyOnce(d, r);
    ExactlyOnce(d, s);
  }

  /** The lines of the generations from `tail`'s first one up to `reload`'s. */
  ghost function Dropped(d: Dir, tail: Reader, reload: Reader): seq<Bytes>
    requires tail.f.Some? && reload.f.Some? && First(reload) <= |d.contents|
  {
    Between(d.contents, First(tail), First(reload))
  }

  /** A reader that began later has handed out the end of what the earlier one has. */
  lemma {:induction false} LaterReaderReadsTheEnd(d: Dir, tail: Reader, reload: Reader)
    requires Sound(d, tail) && InOrder(tail) && tail.f.Some?
    requires Sound(d, reload) && InOrder(reload)
    requires tail.f == reload.f && tail.offset == reload.offset && First(tail) <= First(reload)
    ensures First(reload) <= |d.contents|
    ensures tail.lines == Dropped(d, tail, reload) + reload.lines
  {
    hide InOrder, First, Complete, Rest, AllLines, Numbered, Between;
    ExactlyOnce(d, tail);
    ExactlyOnce(d, reload);
    BetweenAcross(d.contents, First(tail), First(reload), tail.f.value);
    Associate(Dropped(d, tail, reload), Between(d.contents, First(reload), tail.f.value),
              Complete(d.contents[tail.f.value][..tail.offset]));
  }

  /** The page kept live against a reload: the Dispatch followed over `tail`, looked
      up by its own identity in what a fresh scan reads. The scan reads the end of
      what the tail has, LinkOutcome says what it finds there, and what it finds of
      this Dispatch is the same view. */
  lemma {:induction false} LivePageEqualsReload(d: Dir, tail: Reader, reload: Reader, s: State,
                                                decode: Bytes -> Option<Event>)
    requires Sound(d, tail) && InOrder(tail) && tail.f.Some?
    requires Sound(d, reload) && InOrder(reload)
    requires tail.f == reload.f && tail.offset == reload.offset && First(tail) <= First(reload)
    requires Tracks(s) && s.events == Decode(decode, tail.lines)
    requires s.pinned && s.found.Some? && s.found.value.start.time != ""
    requires Contiguous(Starts(s.events, s.q.slot))
    ensures First(reload) <= |d.contents|
    ensures var k, slot := LastMatch(s.q, s.events, s.scanned).value, s.q.slot;
            var a, b := Decode(decode, Dropped(d, tail, reload)), Decode(decode, reload.lines);
      && s.events == a + b
      && LinkOutcome(slot, a, b, k)
      && (k >= |a| && !CountsAcross(slot, a, b, k - |a|) ==>
            Find(Naming(slot, s.events, k), b) == Some(MeaningOf(s.found.value)))
  {
    hide Sound, InOrder, First, Contiguous, Starts, MeaningOf, Find, StartNAt, LinkOutcome, CountsAcross, Dropped;
    LaterReaderReadsTheEnd(d, tail, reload);
    var a, b := Decode(decode, Dropped(d, tail, reload)), Decode(decode, reload.lines);
    DecodeAppend(decode, Dropped(d, tail, reload), reload.lines);
    var k := LastMatch(s.q, s.events, s.scanned).value;
    LinksAfterDrop(s.q.slot, a, b, k);
    OutcomeOf(s.q.slot, a, b, k);
  }

  /** And against a reload that read a generation the page's own open failed to. */
  lemma {:induction false} LivePageEqualsLongerReload(d: Dir, tail: Reader, reload: Reader, s: State,
                                                      decode: Bytes -> Option<Event>)
    requires Sound(d, tail) && InOrder(tail) && tail.f.Some?
    requires Sound(d, reload) && InOrder(reload)
    requires tail.f == reload.f && tail.offset == reload.offset && First(reload) <= First(tail)
    requires Tracks(s) && s.events == Decode(decode, tail.lines)
    requires s.pinned && s.found.Some? && s.found.value.start.time != ""
    requires Contiguous(Starts(Decode(decode, reload.lines), s.q.slot))
    ensures First(tail) <= |d.contents|
    ensures var k, slot := LastMatch(s.q, s.events, s.scanned).value, s.q.slot;
            var a, b := Decode(decode, Dropped(d, reload, tail)), s.events;
            var name := Naming(slot, b, k);
      && Decode(decode, reload.lines) == a + b
      && (LastMatch(name, a + b, |a + b|) == Some(|a| + k) <==> !CountsAcross(slot, a, b, k))
      && (!CountsAcross(slot, a, b, k) ==> Find(name, a + b) == Some(MeaningOf(s.found.value)))
  {
    hide Sound, InOrder, First, Contiguous, Starts, MeaningOf, StartNAt, CountsAcross, Dropped, HistoryAt, LastKey;
    LaterReaderReadsTheEnd(d, reload, tail);
    DecodeAppend(decode, Dropped(d, reload, tail), tail.lines);
    var k := LastMatch(s.q, s.events, s.scanned).value;
    assert StartsOn(s.events[k], s.q.slot);
    HistoryStart(s.q.slot, s.events, k);
    LongerScanIff(s.q.slot, Decode(decode, Dropped(d, reload, tail)), s.events, k);
  }

  lemma OutcomeOf(slot: int, a: seq<Event>, b: seq<Event>, k: nat)
    requires k < |a + b| && LinkOutcome(slot, a, b, k)
    ensures k >= |a| && !CountsAcross(slot, a, b, k - |a|) ==>
              Find(Naming(slot, a + b, k), b) == Some(MeaningOf(HistoryAt(slot, a + b, k)))
  {
    hide CountsAcross;
  }

  /** The reader read both files the names held when `tail` last opened one. */
  ghost predicate ReadsBothNames(tail: Reader, reload: Reader) {
    && tail.f.Some? && reload.f == tail.f
    && First(reload) == if OlderName in tail.seen then tail.seen[OlderName] else tail.f.value
  }

  /** rotatedAway says exactly whether a reload has lost the child_start: with every
      generation followed in order, it holds if and only if the child_start is among
      the events a reader of both names no longer gets. */
  lemma {:induction false} RotatedAwayIffDropped(d: Dir, tail: Reader, reload: Reader, s: State,
                                                 decode: Bytes -> Option<Event>)
    requires Sound(d, tail) && InOrder(tail) && Attributed(d, tail)
    requires ReadsBothNames(tail, reload) && First(tail) <= First(reload) <= |d.contents|
    requires Tracks(s) && s.found.Some?
    requires s.events == Decode(decode, tail.lines) && s.gens == DecodeTags(decode, tail.lines, tail.tags)
    ensures tail.gen - s.startGen >= 2 <==>
            LastMatch(s.q, s.events, s.scanned).value < |Decode(decode, Dropped(d, tail, reload))|
  {
    hide InOrder, Delivered, HandedOutUnder, HistoryAt, LastKey, Starts, Decode, DecodeTags, Between, Complete, Rest;
    var k, m := LastMatch(s.q, s.events, s.scanned).value, First(reload);
    var j := LineOf(decode, tail.lines, k);
    TagOfLine(decode, tail.lines, tail.tags, k);
    var id := Sources(d, tail)[j];
    assert HandedOutUnder(tail, id, s.startGen);
    OutOfSight(d, tail, id, s.startGen, m);
    SourceBeforeIff(d, tail, m, j);
    var rest := LinesFrom(d, tail, m);
    LineAcross(decode, Dropped(d, tail, reload), rest, k);
  }

  lemma {:induction false} LinesFrom(d: Dir, r: Reader, m: FileId) returns (rest: seq<Bytes>)
    requires Sound(d, r) && InOrder(r) && r.f.Some? && First(r) <= m <= r.f.value
    ensures r.lines == Between(d.contents, First(r), m) + rest
  {
    hide InOrder, First, Complete, Rest, AllLines, Numbered, Between;
    ExactlyOnce(d, r);
    BetweenAcross(d.contents, First(r), m, r.f.value);
    var held := Complete(d.contents[r.f.value][..r.offset]);
    rest := Between(d.contents, m, r.f.value) + held;
    Associate(Between(d.contents, First(r), m), Between(d.contents, m, r.f.value), held);
  }

  /** rotatedAway against the older of the files the names hold. */
  lemma {:induction false} OutOfSight(d: Dir, r: Reader, id: FileId, gen: nat, oldest: FileId)
    requires Sound(d, r) && InOrder(r) && r.f.Some? && HandedOutUnder(r, id, gen)
    requires oldest == if OlderName in r.seen then r.seen[OlderName] else r.f.value
    ensures oldest <= r.f.value
    ensures r.gen - gen >= 2 <==> id < oldest
  {
    RotatedAwayExact(d, r, id, gen);
    HandedOutBefore(d, r, id, gen);
    SeenAre(d, r, id);
    hide InOrder, Delivered, HandedOutUnder;
  }

  /** The same, exactly, whatever was skipped: `id` is the file the child_start was
      read from, and the only runs in which rotatedAway answers wrongly are those in
      which the first file taken up after it was not the next one created. */
  lemma {:induction false} RotatedAwayOfFollow(d: Dir, tail: Reader, s: State, decode: Bytes -> Option<Event>)
    returns (id: FileId)
    requires Sound(d, tail) && OlderFirst(tail) && tail.f.Some? && Attributed(d, tail)
    requires Tracks(s) && s.found.Some?
    requires s.events == Decode(decode, tail.lines) && s.gens == DecodeTags(decode, tail.lines, tail.tags)
    ensures var k := LastMatch(s.q, s.events, s.scanned).value;
            var j := LineOf(decode, tail.lines, k);
      id == Sources(d, tail)[j] && decode(tail.lines[j]) == Some(s.found.value.start)
    ensures (tail.gen - s.startGen >= 2 <==> id !in tail.seen.Values) <==>
            !(tail.gen - s.startGen == 1 && id + 1 < tail.f.value)
    ensures InOrder(tail) ==> (tail.gen - s.startGen >= 2 <==> id !in tail.seen.Values)
  {
    hide Delivered, HandedOutUnder, LastKey, Starts, Decode, DecodeTags, Complete, Rest, Segment, TakenOver;
    var k := LastMatch(s.q, s.events, s.scanned).value;
    var j := LineOf(decode, tail.lines, k);
    TagOfLine(decode, tail.lines, tail.tags, k);
    id := Sources(d, tail)[j];
    assert HandedOutUnder(tail, id, s.startGen);
    RotatedAwayExact(d, tail, id, s.startGen);
  }

  lemma {:induction false} DecodeTagsAppend(decode: Bytes -> Option<Event>, x: seq<Bytes>, s: seq<nat>,
                                            y: seq<Bytes>, t: seq<nat>)
    requires |x| == |s| && |y| == |t|
    ensures DecodeTags(decode, x + y, s + t) == DecodeTags(decode, x, s) + DecodeTags(decode, y, t)
  {
    if y == [] {
      assert x + y == x && s + t == s;
    } else {
      var n := |y| - 1;
      DecodeTagsAppend(decode, x, s, y[..n], t[..n]);
      assert (x + y)[..|x| + n] == x + y[..n] && (s + t)[..|s| + n] == s + t[..n];
    }
  }

  lemma {:induction false} DecodeTimes(decode: Bytes -> Option<Event>, lines: seq<Bytes>, gen: nat)
    ensures DecodeTags(decode, lines, Times(gen, |lines|)) == Times(gen, |Decode(decode, lines)|)
  {
    if lines != [] {
      var n := |lines| - 1;
      DecodeTimes(decode, lines[..n], gen);
      assert Times(gen, |lines|)[..n] == Times(gen, n);
    }
  }

  /** The reader has just read all there is under the two names of `d`. */
  ghost predicate FreshIn(d: Dir, r: Reader) {
    && r.f == At(d, CurrentName) && r.older == At(d, OlderName)
    && CaughtUpSince(d, d, r) && InOrder(r)
  }

  /** Readers that hold the same file and have handed out all its complete lines
      have reached the same offset. */
  lemma {:induction false} CaughtUpOffset(d: Dir, r: Reader, s: Reader)
    requires Sound(d, r) && Sound(d, s) && r.f.Some? && s.f == r.f
    requires CaughtUpSince(d, d, r) && CaughtUpSince(d, d, s)
    ensures s.offset == r.offset
  {
    hide Complete, Rest, AllLines, FirstBreak, Finished, Numbered, Flatten;
    var c := d.contents[r.f.value];
    BoundaryIs(c, r.offset);
    BoundaryIs(c, s.offset);
    assert c[..r.offset] == c[..s.offset];
  }

  lemma {:induction false} BoundaryIs(c: Bytes, to: nat)
    requires to <= |c| && Rest(c[..to]) == [] && Complete(c) <= Complete(c[..to])
    ensures c[..to] == Flatten(Complete(c))
  {
    hide Complete, Rest, FirstBreak, Flatten;
    CompleteMonotone(c[..to], c);
    LinesAreTheBytes(c[..to]);
    assert Complete(c) == Complete(c[..to]);
    assert Flatten(Complete(c)) + [] == Flatten(Complete(c));
  }

  /** A page followed by `s` up to generation `gen`, and its reload `s2`: the reload
      scans the end of the same events; the page calls its Dispatch rotated away
      exactly when the child_start is not among them; and unless it is, or is numbered
      anew because the rotation cut a run of equal times, both show the same view.
      LinkOutcome says what the reload finds otherwise. */
  ghost predicate ReloadOutcome(s: State, gen: nat, s2: State)
    requires Tracks(s) && s.found.Some?
  {
    && |s2.events| <= |s.events|
    && var k, slot := LastMatch(s.q, s.events, s.scanned).value, s.q.slot;
       var a, b := s.events[..|s.events| - |s2.events|], s2.events;
       && s.events == a + b
       && (gen - s.startGen >= 2 <==> k < |a|)
       && LinkOutcome(slot, a, b, k)
       && (s2.found.None? <==> LastMatch(Naming(slot, s.events, k), b, |b|).None?)
       && (k >= |a| && !CountsAcross(slot, a, b, k - |a|) ==>
             s2.found.Some? && MeaningOf(s2.found.value) == MeaningOf(s.found.value))
  }

  /** The oldest file under the names of a directory with a current one. */
  function Oldest(d: Dir): FileId
    requires CurrentName in d.at
  {
    if OlderName in d.at then d.at[OlderName] else d.at[CurrentName]
  }

  lemma {:induction false} FreshReads(d: Dir, tail: Reader, r: Reader)
    requires Sound(d, tail) && CurrentName in d.at && tail.f == At(d, CurrentName)
    requires Sound(d, r) && FreshIn(d, r)
    ensures ReadsBothNames(tail, r) && First(r) == Oldest(d) <= |d.contents|
  {
    hide Delivered, CaughtUpSince;
  }

  /** Reloading a page that is caught up, in a quiet directory. */
  lemma {:induction false} ReloadShows(d: Dir, tail: Reader, s: State, r: Reader, s2: State,
                                       decode: Bytes -> Option<Event>)
    requires Sound(d, tail) && InOrder(tail) && Attributed(d, tail) && CaughtUpSince(d, d, tail)
    requires CurrentName in d.at && tail.f == At(d, CurrentName) && First(tail) <= Oldest(d)
    requires Sound(d, r) && FreshIn(d, r)
    requires Tracks(s) && s.pinned && s.found.Some? && s.found.value.start.time != ""
    requires s.events == Decode(decode, tail.lines) && s.gens == DecodeTags(decode, tail.lines, tail.tags)
    requires Contiguous(Starts(s.events, s.q.slot))
    requires Tracks(s2) && s2.events == Decode(decode, r.lines) && s2.scanned == |s2.events|
    requires s2.q == Naming(s.q.slot, s.events, LastMatch(s.q, s.events, s.scanned).value)
    ensures ReloadOutcome(s, tail.gen, s2)
  {
    hide Sound, InOrder, Attributed, CaughtUpSince, Contiguous, Starts, MeaningOf, CountsAcross, LinkOutcome, Decode;
    hide DecodeTags, StartNAt, Dropped, First, OlderFirst, Oldest, HistoryAt, LastKey;
    FreshReads(d, tail, r);
    CaughtUpOffset(d, tail, r);
    LivePageEqualsReload(d, tail, r, s, decode);
    RotatedAwayIffDropped(d, tail, r, s, decode);
    assert s.events[..|s.events| - |s2.events|] == Decode(decode, Dropped(d, tail, r));
  }
}
