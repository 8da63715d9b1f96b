/** Whole runs of the tailing reader: opened once and polled any number of times
    while the Daemon goes on. Which lines a run hands out, and under which
    generation numbers, follows from the directories its calls found. */
module TailRuns {
  import opened Lines
  import opened EventsDirectory
  import opened Options
  import opened EventsTail
  import opened TailDelivery

  /** The file each line of the finished files was read from. */
  function FinishedSources(contents: seq<Bytes>, ids: seq<FileId>): seq<FileId>
    requires forall i :: 0 <= i < |ids| ==> ids[i] < |contents|
  {
    if ids == [] then []
    else
      var last := ids[|ids| - 1];
      FinishedSources(contents, ids[..|ids| - 1]) + Times(last, |AllLines(contents[last])|)
  }

  /** The file each line handed out was read from. */
  ghost function Sources(d: Dir, r: Reader): seq<FileId>
    requires Delivered(d, r)
  {
    (if r.older.Some? then Times(r.older.value, |r.olderLines|) else []) +
    FinishedSources(d.contents, r.done) +
    if r.f.Some? then Times(r.f.value, |Held(d.contents, r.f, r.offset)|) else []
  }

  /** `from` and `tags` agree with the reader's own numbering. */
  ghost predicate Tagged(r: Reader, from: seq<FileId>, tags: seq<nat>) {
    && |tags| == |from|
    && forall j :: 0 <= j < |tags| ==> HandedOutUnder(r, from[j], tags[j])
  }

  /** Line by line, the file and the generation number it was handed out under. */
  ghost predicate Attributed(d: Dir, r: Reader) {
    Delivered(d, r) && |r.tags| == |r.lines| && Tagged(r, Sources(d, r), r.tags)
  }

  lemma {:induction false} FinishedSourcesHoldLines(contents: seq<Bytes>, ids: seq<FileId>)
    requires forall i :: 0 <= i < |ids| ==> ids[i] < |contents|
    ensures var from, lines := FinishedSources(contents, ids), Finished(contents, ids);
      && |from| == |lines|
      && forall j :: 0 <= j < |lines| ==> from[j] < |contents| && lines[j] in AllLines(contents[from[j]])
  {
    hide AllLines;
    if ids != [] {
      FinishedSourcesHoldLines(contents, ids[..|ids| - 1]);
    }
  }

  lemma HeldIn(contents: seq<Bytes>, f: FileId, offset: nat)
    requires f < |contents| && offset <= |contents[f]|
    ensures Held(contents, Some(f), offset) <= AllLines(contents[f])
  {
    CompleteMonotone(contents[f][..offset], contents[f]);
  }

  /** Sources is right: each line is one of its file's. */
  lemma {:induction false} SourcesHoldLines(d: Dir, r: Reader)
    requires Delivered(d, r)
    ensures |Sources(d, r)| == |r.lines|
    ensures forall j :: 0 <= j < |r.lines| ==>
              Sources(d, r)[j] < |d.contents| && r.lines[j] in AllLines(d.contents[Sources(d, r)[j]])
  {
    hide AllLines, Complete, Rest, Finished, FinishedSources;
    FinishedSourcesHoldLines(d.contents, r.done);
    if r.f.Some? {
      HeldIn(d.contents, r.f.value, r.offset);
    }
  }

  lemma {:induction false} FinishedSourcesPrepend(contents: seq<Bytes>, id: FileId, ids: seq<FileId>)
    requires id < |contents| && forall i :: 0 <= i < |ids| ==> ids[i] < |contents|
    ensures FinishedSources(contents, [id] + ids) ==
            Times(id, |AllLines(contents[id])|) + FinishedSources(contents, ids)
  {
    hide AllLines;
    var all := [id] + ids;
    if ids == [] {
      assert all[..0] == [];
    } else {
      var n := |ids| - 1;
      FinishedSourcesPrepend(contents, id, ids[..n]);
      assert all[..n + 1] == [id] + ids[..n];
    }
  }

  /** Of consecutive files, the lines from files before `m` come first. */
  lemma {:induction false} SourcesBefore(contents: seq<Bytes>, ids: seq<FileId>, lo: FileId, hi: FileId,
                                         m: FileId, j: nat)
    requires lo <= m <= hi <= |contents| && |ids| == hi - lo
    requires forall i :: 0 <= i < |ids| ==> ids[i] == lo + i
    requires j < |FinishedSources(contents, ids)|
    ensures FinishedSources(contents, ids)[j] < m <==> j < |Between(contents, lo, m)|
    decreases hi
  {
    hide AllLines;
    BetweenLength(contents, ids, lo, hi);
    if lo < hi {
      var n := |ids| - 1;
      BetweenLength(contents, ids[..n], lo, hi - 1);
      if m < hi {
        BetweenAcross(contents, lo, m, hi - 1);
      }
      if j < |FinishedSources(contents, ids[..n])| {
        SourcesBefore(contents, ids[..n], lo, hi - 1, if m < hi then m else hi - 1, j);
      }
    }
  }

  lemma {:induction false} BetweenLength(contents: seq<Bytes>, ids: seq<FileId>, lo: FileId, hi: FileId)
    requires lo <= hi <= |contents| && |ids| == hi - lo
    requires forall i :: 0 <= i < |ids| ==> ids[i] == lo + i
    ensures |FinishedSources(contents, ids)| == |Between(contents, lo, hi)|
    decreases hi
  {
    hide AllLines;
    if lo < hi {
      BetweenLength(contents, ids[..|ids| - 1], lo, hi - 1);
    }
  }

  /** With no generation skipped, a line comes from a file before `m` exactly when it
      is among the lines of the generations before `m`. */
  lemma {:induction false} SourceBeforeIff(d: Dir, r: Reader, m: FileId, j: nat)
    requires Sound(d, r) && InOrder(r) && r.f.Some? && First(r) <= m <= r.f.value
    requires j < |Sources(d, r)|
    ensures Sources(d, r)[j] < m <==> j < |Between(d.contents, First(r), m)|
  {
    hide AllLines, Complete, Rest, FinishedSources, Between, Finished;
    var ids, f := ReadBefore(r), r.f.value;
    if r.older.Some? {
      FinishedSourcesPrepend(d.contents, r.older.value, r.done);
    } else {
      assert ids == r.done;
    }
    ConsecutiveRead(r);
    BetweenLength(d.contents, ids, First(r), f);
    BetweenAcross(d.contents, First(r), m, f);
    if j < |FinishedSources(d.contents, ids)| {
      SourcesBefore(d.contents, ids, First(r), f, m, j);
    }
  }

  lemma {:induction false} ConsecutiveRead(r: Reader)
    requires InOrder(r) && r.f.Some?
    ensures var ids := ReadBefore(r);
      |ids| == r.f.value - First(r) && forall i :: 0 <= i < |ids| ==> ids[i] == First(r) + i
  {
    var cs, ids := Currents(r), ReadBefore(r);
    assert cs[|r.done|] == r.f.value;
    if r.older.Some? {
      forall i | 0 < i < |ids|
        ensures ids[i] == First(r) + i
      {
        assert ids[i] == cs[i - 1];
      }
    } else {
      assert forall i :: 0 <= i < |ids| ==> ids[i] == cs[i];
    }
  }

  lemma {:induction false} FinishedSourcesStable(d: Dir, e: Dir, ids: seq<FileId>)
    requires forall i :: 0 <= i < |ids| ==> Closed(d, ids[i])
    requires Evolves(d, e)
    ensures forall i :: 0 <= i < |ids| ==> Closed(e, ids[i])
    ensures FinishedSources(d.contents, ids) == FinishedSources(e.contents, ids)
  {
    hide AllLines;
    if ids != [] {
      FinishedSourcesStable(d, e, ids[..|ids| - 1]);
      assert Closed(d, ids[|ids| - 1]);
    }
  }

  lemma TimesAdd(x: nat, m: nat, n: nat)
    ensures Times(x, m) + Times(x, n) == Times(x, m + n)
  {
  }

  /** The last source's stretch grows from `m` to `m + n` entries. */
  lemma SourcesGrow(a: seq<FileId>, b: seq<FileId>, x: FileId, m: nat, n: nat)
    ensures a + (b + Times(x, m + n)) == a + b + Times(x, m) + Times(x, n)
    ensures a + b + Times(x, m + n) == a + b + Times(x, m) + Times(x, n) + Times(x, 0)
  {
    TimesAdd(x, m, n);
  }

  lemma FinishedNext(contents: seq<Bytes>, ids: seq<FileId>, id: FileId)
    requires id < |contents| && forall i :: 0 <= i < |ids| ==> ids[i] < |contents|
    ensures Finished(contents, ids + [id]) == Finished(contents, ids) + AllLines(contents[id])
    ensures FinishedSources(contents, ids + [id]) ==
            FinishedSources(contents, ids) + Times(id, |AllLines(contents[id])|)
  {
    assert (ids + [id])[..|ids|] == ids;
  }

  /** What a poll adds to the sources: `before` comes from the file held before it,
      `after` from the one held after it. */
  lemma {:induction false} SourcesPolled(d: Dir, e: Dir, r: Reader, r': Reader, before: seq<Bytes>, after: seq<Bytes>)
    requires Sound(d, r) && Sound(e, r') && Evolves(d, e) && Polled(r, r', before, after)
    requires r'.f.Some? && r'.f != r.f ==> after == Held(e.contents, r'.f, r'.offset)
    ensures r.f.None? ==> before == []
    ensures r'.f.None? ==> after == []
    ensures Sources(e, r') == Sources(d, r)
                              + (if r.f.Some? then Times(r.f.value, |before|) else [])
                              + (if r'.f.Some? then Times(r'.f.value, |after|) else [])
  {
    hide Sources, Sound, Evolves, Held, Times;
    if r'.f == r.f {
      SourcesInPlace(d, e, r, r', before);
    } else if r.f.None? {
      SourcesFirst(d, e, r, r', after);
    } else {
      SourcesAcross(d, e, r, r', before, after);
    }
  }

  lemma {:induction false} SourcesInPlace(d: Dir, e: Dir, r: Reader, r': Reader, before: seq<Bytes>)
    requires Sound(d, r) && Sound(e, r') && Evolves(d, e) && Polled(r, r', before, []) && r'.f == r.f
    ensures r.f.None? ==> before == []
    ensures Sources(e, r') == Sources(d, r)
                              + (if r.f.Some? then Times(r.f.value, |before|) else [])
                              + (if r.f.Some? then Times(r.f.value, 0) else [])
  {
    hide AllLines, Complete, Rest, Finished, FinishedSources, Times, Numbered, Evolves;
    FinishedSourcesStable(d, e, r.done);
    FinishedStable(d, e, r.done);
    if r.f.Some? {
      var a, b := if r.older.Some? then Times(r.older.value, |r.olderLines|) else [], FinishedSources(d.contents, r.done);
      SourcesGrow(a, b, r.f.value, |Held(d.contents, r.f, r.offset)|, |before|);
    }
  }

  lemma {:induction false} SourcesFirst(d: Dir, e: Dir, r: Reader, r': Reader, after: seq<Bytes>)
    requires Sound(d, r) && Sound(e, r') && Evolves(d, e) && Polled(r, r', [], after)
    requires r.f.None? && r'.f.Some? && after == Held(e.contents, r'.f, r'.offset)
    ensures Sources(e, r') == Sources(d, r) + [] + Times(r'.f.value, |after|)
  {
    hide AllLines, Complete, Rest, Finished, FinishedSources, Times, Held, Evolves;
    FinishedSourcesStable(d, e, r.done);
  }

  lemma {:induction false} SourcesAcross(d: Dir, e: Dir, r: Reader, r': Reader, before: seq<Bytes>, after: seq<Bytes>)
    requires Sound(d, r) && Sound(e, r') && Evolves(d, e) && Polled(r, r', before, after)
    requires r.f.Some? && r'.f.Some? && r'.f != r.f && after == Held(e.contents, r'.f, r'.offset)
    ensures Sources(e, r') == Sources(d, r) + Times(r.f.value, |before|) + Times(r'.f.value, |after|)
  {
    hide AllLines, Complete, Rest, Finished, FinishedSources, Times, Numbered, Evolves;
    FinishedSourcesStable(d, e, r.done);
    FinishedStable(d, e, r.done);
    var a, b := if r.older.Some? then Times(r.older.value, |r.olderLines|) else [], FinishedSources(d.contents, r.done);
    var held := |Held(d.contents, r.f, r.offset)|;
    SourcesGrow(a, b, r.f.value, held, |before|);
    FinishedNext(e.contents, r.done, r.f.value);
    assert |AllLines(e.contents[r.f.value])| == held + |before|;
    assert Sources(e, r') == a + (b + Times(r.f.value, held + |before|)) + Times(r'.f.value, |after|);
  }

  lemma {:induction false} OpenedAttributed(d: Dir, r: Reader, out0: seq<Bytes>, out1: seq<Bytes>)
    requires Sound(d, r) && r.gen == 1 && r.done == []
    requires r.olderLines == out0 && r.lines == out0 + out1
    requires r.tags == Times(0, |out0|) + Times(1, |out1|)
    requires if r.f.Some? then out1 == Held(d.contents, r.f, r.offset) else out1 == []
    ensures Attributed(d, r)
  {
    hide AllLines, Complete, Rest, Held;
  }

  lemma {:induction false} TaggedAdd(r: Reader, a: seq<FileId>, s: seq<nat>, b: seq<FileId>, t: seq<nat>)
    requires Tagged(r, a, s) && Tagged(r, b, t)
    ensures Tagged(r, a + b, s + t)
  {
    hide HandedOutUnder;
  }

  lemma {:induction false} TaggedTimes(r: Reader, id: FileId, gen: nat, n: nat)
    requires HandedOutUnder(r, id, gen)
    ensures Tagged(r, Times(id, n), Times(gen, n))
  {
  }

  lemma {:induction false} TaggedStays(r: Reader, r': Reader, before: seq<Bytes>, after: seq<Bytes>,
                                       from: seq<FileId>, tags: seq<nat>)
    requires Tagged(r, from, tags) && Polled(r, r', before, after)
    requires r.gen == 1 + |r.done| && (r.f.None? ==> r.done == [])
    ensures Tagged(r', from, tags)
  {
    NextCurrent(r, r', before, after);
    hide Polled;
    forall j | 0 <= j < |tags|
      ensures HandedOutUnder(r', from[j], tags[j])
    {
      assert HandedOutUnder(r, from[j], tags[j]);
    }
  }

  /** A batch of `n` lines more, of the file `f` if any, under `gen`. */
  lemma {:induction false} TaggedBatch(r: Reader, from: seq<FileId>, tags: seq<nat>, f: Option<FileId>, gen: nat, n: nat)
    requires Tagged(r, from, tags) && (if f.Some? then HandedOutUnder(r, f.value, gen) else n == 0)
    ensures Tagged(r, from + (if f.Some? then Times(f.value, n) else []), tags + Times(gen, n))
  {
    hide HandedOutUnder;
    if f.Some? {
      TaggedTimes(r, f.value, gen, n);
      TaggedAdd(r, from, tags, Times(f.value, n), Times(gen, n));
    } else {
      assert from + [] == from && tags + [] == tags && Times(gen, 0) == [];
    }
  }

  lemma {:induction false} StaysUnder(r: Reader, r': Reader, before: seq<Bytes>, after: seq<Bytes>, id: FileId, gen: nat)
    requires HandedOutUnder(r, id, gen) && Polled(r, r', before, after)
    requires r.gen == 1 + |r.done| && (r.f.None? ==> r.done == [])
    ensures HandedOutUnder(r', id, gen)
  {
    NextCurrent(r, r', before, after);
    hide Polled;
  }

  lemma OwnNumber(d: Dir, r: Reader)
    requires Sound(d, r)
    ensures r.gen == 1 + |r.done| && (r.f.None? ==> r.done == [])
    ensures r.f.Some? ==> HandedOutUnder(r, r.f.value, r.gen)
  {
    hide HandedOutUnder, Delivered;
    if r.f.Some? {
      HeldGeneration(d, r);
    }
  }

  lemma PolledTags(r: Reader, r': Reader, before: seq<Bytes>, after: seq<Bytes>)
    requires Polled(r, r', before, after)
    ensures r'.tags == r.tags + Times(r.gen, |before|) + Times(r'.gen, |after|)
  {
  }

  /** However a poll moves, each line stays attributed to the file it was read from
      and to the number that file was current under. */
  lemma {:induction false} PolledAttributed(d: Dir, e: Dir, r: Reader, r': Reader, before: seq<Bytes>, after: seq<Bytes>)
    requires Sound(d, r) && Sound(e, r') && Evolves(d, e) && Polled(r, r', before, after)
    requires r'.f.Some? && r'.f != r.f ==> after == Held(e.contents, r'.f, r'.offset)
    requires Attributed(d, r)
    ensures Attributed(e, r')
  {
    hide Sources, Held, Evolves, HandedOutUnder, Delivered, Numbered, Polled, Tagged, Times;
    SourcesPolled(d, e, r, r', before, after);
    SourcesHoldLines(e, r');
    PolledTags(r, r', before, after);
    OwnNumber(d, r);
    OwnNumber(e, r');
    TaggedStays(r, r', before, after, Sources(d, r), r.tags);
    if r.f.Some? {
      StaysUnder(r, r', before, after, r.f.value, r.gen);
    }
    TaggedBatch(r', Sources(d, r), r.tags, r.f, r.gen, |before|);
    TaggedBatch(r', Sources(d, r) + (if r.f.Some? then Times(r.f.value, |before|) else []),
                r.tags + Times(r.gen, |before|), r'.f, r'.gen, |after|);
    SameLength(r', Sources(e, r'), r'.tags);
  }

  lemma SameLength(r: Reader, from: seq<FileId>, tags: seq<nat>)
    requires Tagged(r, from, tags)
    ensures |tags| == |from|
  {
  }

  /** One poll of a run: the directory in which it opened the path, whether it
      succeeded, what it handed out, and what it left behind. */
  datatype Call = Call(at: Dir, ok: bool, before: seq<Bytes>, after: seq<Bytes>, reader: Reader, end: Dir)

  /** What Tail.Poll promises of a call made in `d` by a reader in state `r`. */
  ghost predicate PollCall(d: Dir, r: Reader, c: Call) {
    && WellFormed(c.at) && Evolves(d, c.at) && Evolves(c.at, c.end)
    && Sound(d, r) && Sound(c.end, c.reader)
    && Polled(r, c.reader, c.before, c.after)
    && (c.reader.f.Some? && c.reader.f != r.f ==> c.after == Held(c.end.contents, c.reader.f, c.reader.offset))
    && MovesTo(c.at, r, c.reader)
    && (c.ok ==> Follows(c.at, r, c.reader))
  }

  /** The reader before the i-th call, and the directory. */
  function ReaderAt(r: Reader, calls: seq<Call>, i: nat): Reader
    requires i <= |calls|
  {
    if i == 0 then r else calls[i - 1].reader
  }

  function DirAt(d: Dir, calls: seq<Call>, i: nat): Dir
    requires i <= |calls|
  {
    if i == 0 then d else calls[i - 1].end
  }

  /** A run of polls from `d` and `r` on. */
  ghost predicate Polls(d: Dir, r: Reader, calls: seq<Call>) {
    && Sound(d, r)
    && forall i :: 0 <= i < |calls| ==> PollCall(DirAt(d, calls, i), ReaderAt(r, calls, i), calls[i])
  }

  lemma {:induction false} PollsNext(d: Dir, r: Reader, calls: seq<Call>, c: Call)
    requires Polls(d, r, calls) && PollCall(DirAt(d, calls, |calls|), ReaderAt(r, calls, |calls|), c)
    ensures Polls(d, r, calls + [c])
  {
    hide PollCall, Sound;
    var all := calls + [c];
    forall i | 0 <= i < |all|
      ensures PollCall(DirAt(d, all, i), ReaderAt(r, all, i), all[i])
    {
      assert DirAt(d, all, i) == DirAt(d, calls, i) && ReaderAt(r, all, i) == ReaderAt(r, calls, i);
    }
  }

  /** The i-th call finds the newest file opened before it under one of the two
      names, or does not move. */
  ghost predicate Kept(r: Reader, calls: seq<Call>, i: nat)
    requires i < |calls|
  {
    calls[i].reader.f != ReaderAt(r, calls, i).f ==> StillNamed(calls[i].at, ReaderAt(r, calls, i))
  }

  /** A run skips no generation exactly when every poll that moves finds the newest
      file opened so far still under one of the two names. */
  lemma {:induction false} RunKeepsOrderIff(d: Dir, r: Reader, calls: seq<Call>, n: nat)
    requires Polls(d, r, calls) && n <= |calls|
    ensures InOrder(ReaderAt(r, calls, n)) <==> InOrder(r) && forall i :: 0 <= i < n ==> Kept(r, calls, i)
  {
    hide Sound, InOrder, PollCall, StillNamed;
    if n > 0 {
      RunKeepsOrderIff(d, r, calls, n - 1);
      CallKeepsOrderIff(DirAt(d, calls, n - 1), ReaderAt(r, calls, n - 1), calls[n - 1]);
      assert InOrder(ReaderAt(r, calls, n)) <==> InOrder(ReaderAt(r, calls, n - 1)) && Kept(r, calls, n - 1);
    }
  }

  lemma {:induction false} CallKeepsOrderIff(d: Dir, r: Reader, c: Call)
    requires PollCall(d, r, c)
    ensures InOrder(c.reader) <==> InOrder(r) && (c.reader.f != r.f ==> StillNamed(c.at, r))
    ensures c.ok ==> (InOrder(c.reader) <==> InOrder(r) && StillNamed(c.at, r))
  {
    hide Sound, InOrder, Polled, Follows, StillNamed, MovesTo, Evolves;
    DaemonKeepsReaderSound(d, c.at, r);
    PollKeepsOrderIff(c.at, r, c.reader, c.before, c.after);
  }

  /** What the Daemon's pace has to be: where every poll succeeds and finds a current
      file, and creates at most one file between one poll's open and the next, no
      generation is skipped. */
  lemma {:induction false} OneFileAPollKeepsOrder(d: Dir, r: Reader, calls: seq<Call>)
    requires Polls(d, r, calls) && InOrder(r)
    requires forall i :: 0 <= i < |calls| ==> calls[i].ok && CurrentName in calls[i].at.at
    requires forall i :: 0 < i < |calls| ==> |calls[i].at.contents| <= |calls[i - 1].at.contents| + 1
    requires calls != [] && Newest(r).Some? ==> |calls[0].at.contents| <= Newest(r).value + 2
    ensures InOrder(ReaderAt(r, calls, |calls|))
  {
    hide Sound, InOrder, StillNamed, Polled;
    forall i | 0 <= i < |calls|
      ensures Kept(r, calls, i)
    {
      var was, c := ReaderAt(r, calls, i), calls[i];
      assert PollCall(DirAt(d, calls, i), was, c);
      if i > 0 {
        assert PollCall(DirAt(d, calls, i - 1), ReaderAt(r, calls, i - 1), calls[i - 1]);
        assert was.f == Some(calls[i - 1].at.at[CurrentName]);
      }
      if Newest(was).Some? {
        DaemonKeepsReaderSound(DirAt(d, calls, i), c.at, was);
        OneNewFileKeepsOrder(c.at, c.at, was);
      } else {
        NothingNewest(c.at, was);
      }
    }
    RunKeepsOrderIff(d, r, calls, |calls|);
  }

  lemma NothingNewest(d: Dir, r: Reader)
    requires Newest(r).None?
    ensures StillNamed(d, r)
  {
  }

  /** Every file between the newest one opened before and the one that is current in
      `at` holds no line. */
  ghost predicate MissesNothing(contents: seq<Bytes>, at: Dir, r: Reader) {
    CurrentName in at.at && Newest(r).Some? && at.at[CurrentName] <= |contents| ==>
      OnlyEmptySkipped(contents, [], Newest(r).value + 1, at.at[CurrentName])
  }

  /** No file with a line was skipped, by a reader that may hold none yet. */
  ghost predicate Lossless(contents: seq<Bytes>, r: Reader) {
    r.f.Some? && r.f.value <= |contents| ==> OnlyEmptySkipped(contents, ReadBefore(r), First(r), r.f.value)
  }

  lemma {:induction false} SkippedAcross(contents: seq<Bytes>, ids: seq<FileId>, lo: FileId, m: FileId, hi: FileId)
    requires lo <= m < hi <= |contents|
    requires forall i :: 0 <= i < |ids| ==> ids[i] < m
    ensures OnlyEmptySkipped(contents, ids + [m], lo, hi) <==>
            OnlyEmptySkipped(contents, ids, lo, m) && OnlyEmptySkipped(contents, [], m + 1, hi)
  {
    hide AllLines;
    var all := ids + [m];
    assert forall id :: id in all <==> id in ids || id == m;
    assert forall id :: id in ids ==> id < m;
  }

  lemma {:induction false} BelowHeld(d: Dir, r: Reader)
    requires Sound(d, r) && r.f.Some?
    ensures First(r) <= r.f.value
    ensures forall i :: 0 <= i < |ReadBefore(r)| ==> ReadBefore(r)[i] < r.f.value
  {
    hide AllLines, Complete, Rest, Finished, Delivered;
    var cs, n := Currents(r), |r.done|;
    assert cs[n] == r.f.value;
    forall i | 0 <= i < n
      ensures r.done[i] < r.f.value
    {
      assert cs[i] < cs[n];
    }
    assert n > 0 ==> cs[0] < cs[n];
  }

  lemma {:induction false} ReadBeforeNext(r: Reader, r': Reader, before: seq<Bytes>, after: seq<Bytes>)
    requires Polled(r, r', before, after) && (r.f.None? ==> r.done == []) && r'.f != r.f && r.gen == 1 + |r.done|
    requires r.f.None? && r.older.Some? && r'.f.Some? ==> r.older.value < r'.f.value
    ensures r'.f.Some? && ReadBefore(r') == if r.f.Some? then ReadBefore(r) + [r.f.value] else ReadBefore(r)
    ensures r.f.Some? ==> First(r') == First(r)
    ensures r.f.None? ==> First(r') == if r.older.Some? then r.older.value else r'.f.value
  {
    NextCurrent(r, r', before, after);
  }

  /** One poll loses nothing more exactly when what lies between the newest file
      opened before it and the one it finds current holds no line. */
  lemma {:induction false} CallLosesNothingIff(contents: seq<Bytes>, d: Dir, r: Reader, c: Call)
    requires PollCall(d, r, c) && |c.end.contents| <= |contents|
    ensures Lossless(contents, c.reader) <==>
            Lossless(contents, r) && (c.reader.f != r.f ==> MissesNothing(contents, c.at, r))
  {
    hide PollCall, Sound, AllLines, OnlyEmptySkipped, Currents, First, ReadBefore;
    var r' := c.reader;
    CallMoves(d, r, c);
    CallReads(d, r, c);
    if r'.f != r.f {
      if r.f.Some? {
        BelowHeld(c.at, r);
        SkippedAcross(contents, ReadBefore(r), First(r), r.f.value, r'.f.value);
      } else if r.older.Some? {
        assert [] + [r.older.value] == [r.older.value];
        SkippedAcross(contents, [], r.older.value, r.older.value, r'.f.value);
        EmptyRange(contents, [], r.older.value);
      } else {
        EmptyRange(contents, [], r'.f.value);
      }
    }
  }

  /** How one poll changes the files read before the held one. */
  lemma {:induction false} CallReads(d: Dir, r: Reader, c: Call)
    requires PollCall(d, r, c)
    ensures r.f.Some? ==>
              && c.reader.f.Some? && First(c.reader) == First(r)
              && ReadBefore(c.reader) == if c.reader.f != r.f then ReadBefore(r) + [r.f.value] else ReadBefore(r)
    ensures r.f.None? && c.reader.f.Some? ==>
              && ReadBefore(c.reader) == (if r.older.Some? then [r.older.value] else [])
              && First(c.reader) == if r.older.Some? then r.older.value else c.reader.f.value
  {
    CallMoves(d, r, c);
    hide Delivered, Evolves, Numbered;
    if c.reader.f != r.f {
      ReadBeforeNext(r, c.reader, c.before, c.after);
    } else {
      SameReadBefore(r, c.reader, c.before, c.after);
    }
  }

  lemma {:induction false} SameReadBefore(r: Reader, r': Reader, before: seq<Bytes>, after: seq<Bytes>)
    requires Polled(r, r', before, after) && r'.f == r.f
    ensures ReadBefore(r') == ReadBefore(r) && (r.f.Some? ==> First(r') == First(r))
  {
  }

  /** Where a call that moves moves to. */
  lemma {:induction false} CallMoves(d: Dir, r: Reader, c: Call)
    requires PollCall(d, r, c)
    ensures Sound(c.at, r) && r.gen == 1 + |r.done| && (r.f.None? ==> r.done == [])
    ensures c.reader.f != r.f ==>
              CurrentName in c.at.at && c.reader.f == Some(c.at.at[CurrentName]) && c.reader.f.value < |c.end.contents|
    ensures c.reader.f != r.f && Newest(r).Some? ==> Newest(r).value < c.reader.f.value
    ensures c.reader.older == r.older && c.reader.olderLines == r.olderLines
    ensures |d.contents| <= |c.end.contents|
  {
    DaemonKeepsReaderSound(d, c.at, r);
    hide Delivered, AllLines;
    if c.reader.f != r.f {
      NextCurrent(r, c.reader, c.before, c.after);
      if Newest(r).Some? {
        NewestIsOlder(c.at, r);
      }
    }
  }

  /** The i-th call passes over no file with a line. */
  ghost predicate LosesNothing(contents: seq<Bytes>, r: Reader, calls: seq<Call>, i: nat)
    requires i < |calls|
  {
    calls[i].reader.f != ReaderAt(r, calls, i).f ==> MissesNothing(contents, calls[i].at, ReaderAt(r, calls, i))
  }

  lemma {:induction false} RunLosslessIff(contents: seq<Bytes>, d: Dir, r: Reader, calls: seq<Call>, n: nat)
    requires Polls(d, r, calls) && n <= |calls|
    requires |DirAt(d, calls, n).contents| <= |contents|
    ensures ReaderAt(r, calls, n).older == r.older && ReaderAt(r, calls, n).olderLines == r.olderLines
    ensures Lossless(contents, ReaderAt(r, calls, n)) <==>
            Lossless(contents, r) && forall i :: 0 <= i < n ==> LosesNothing(contents, r, calls, i)
  {
    hide Sound, OlderFirst, Lossless, MissesNothing, PollCall;
    if n > 0 {
      var e, was, c := DirAt(d, calls, n - 1), ReaderAt(r, calls, n - 1), calls[n - 1];
      CallMoves(e, was, c);
      RunLosslessIff(contents, d, r, calls, n - 1);
      CallLosesNothingIff(contents, e, was, c);
      assert Lossless(contents, c.reader) <==> Lossless(contents, was) && LosesNothing(contents, r, calls, n - 1);
    }
  }

  /** What open leaves in any case: an older file that comes before the current one
      comes right before it. */
  predicate JustOpened(r: Reader) {
    r.done == [] && (r.older.Some? && r.f.Some? && r.older.value < r.f.value ==> r.older.value + 1 == r.f.value)
  }

  /** Exactly once, over whole runs: however open went, and however often it is
      polled, a reader has handed out the lines of all generations from the first one
      read, each once and in order, if and only if open's scan of the older one missed
      none of its lines and no poll passed over a file that held one: a file created
      after the newest opened so far and gone from both names before the path was
      opened. An older file that open read out of turn, the current one itself or a
      later one, adds its lines ahead of all others. */
  lemma {:induction false} RunLosesNothingIff(d: Dir, r: Reader, calls: seq<Call>)
    requires Polls(d, r, calls) && JustOpened(r)
    requires ReaderAt(r, calls, |calls|).f.Some?
    ensures var e, z := DirAt(d, calls, |calls|), ReaderAt(r, calls, |calls|);
      && Sound(e, z) && z.older == r.older && z.olderLines == r.olderLines
      && (OlderFirst(z) ==>
            (z.lines == Stream(e.contents, First(z), z.f.value, z.offset) <==>
             OlderComplete(e.contents, z) && forall i :: 0 <= i < |calls| ==> LosesNothing(e.contents, r, calls, i)))
      && (!OlderFirst(z) ==>
            (z.lines == z.olderLines + Stream(e.contents, First(z), z.f.value, z.offset) <==>
             forall i :: 0 <= i < |calls| ==> LosesNothing(e.contents, r, calls, i)))
  {
    hide Delivered, Numbered, Stream, OnlyEmptySkipped, MissesNothing, Polled, Evolves, Follows, MovesTo, OlderFirst;
    var n := |calls|;
    var e, z := DirAt(d, calls, n), ReaderAt(r, calls, n);
    if n > 0 {
      assert PollCall(DirAt(d, calls, n - 1), ReaderAt(r, calls, n - 1), calls[n - 1]);
    }
    RunLosslessIff(e.contents, d, r, calls, n);
    NothingLostIff(e, z);
    HeldExists(e, z);
    StartsLossless(e.contents, r);
  }

  lemma HeldExists(d: Dir, r: Reader)
    requires Sound(d, r)
    ensures r.f.Some? ==> r.f.value < |d.contents|
  {
  }

  lemma StartsLossless(contents: seq<Bytes>, r: Reader)
    requires JustOpened(r)
    ensures Lossless(contents, r)
  {
    hide AllLines;
  }

  /** A failing read of the older file loses what it did not reach, for good: no poll
      comes back to it. */
  lemma {:induction false} FailedScanLosesLines(a: Bytes, b: Bytes, d: Dir, o: Opening, r: Reader, calls: seq<Call>)
    requires d == Dir([a, b], map[OlderName := 0, CurrentName := 1])
    requires o == Opening(d, d, Opened(1), Opened(0), true)
    requires StartsFrom(o, r) && r.done == [] && Polls(d, r, calls)
    requires r.olderLines != AllLines(a) && ReaderAt(r, calls, |calls|).f.Some?
    ensures Opens(o)
    ensures var e, z := DirAt(d, calls, |calls|), ReaderAt(r, calls, |calls|);
      Sound(e, z) && First(z) == 0 && z.lines != Stream(e.contents, 0, z.f.value, z.offset)
  {
    hide Delivered, Numbered, Stream, AllLines, Polls, LosesNothing;
    var n := |calls|;
    var e, z := DirAt(d, calls, n), ReaderAt(r, calls, n);
    RunReaches(d, r, calls, n);
    RunLosesNothingIff(d, r, calls);
    assert Closed(d, 0);
    assert First(z) == 0 && OlderFirst(z);
  }

  /** Where a run leads: a later state of the directory, and the same first current
      file once there is one. */
  lemma {:induction false} RunReaches(d: Dir, r: Reader, calls: seq<Call>, n: nat)
    requires Polls(d, r, calls) && n <= |calls|
    ensures WellFormed(DirAt(d, calls, n)) && Evolves(d, DirAt(d, calls, n))
    ensures r.f.Some? ==>
              ReaderAt(r, calls, n).f.Some? && Currents(ReaderAt(r, calls, n))[0] == Currents(r)[0]
  {
    hide Delivered, Numbered, PollCall, Evolves;
    if n == 0 {
      EvolvesItself(d);
    } else {
      RunReaches(d, r, calls, n - 1);
      var e, was, c := DirAt(d, calls, n - 1), ReaderAt(r, calls, n - 1), calls[n - 1];
      CallReaches(e, was, c);
      EvolvesTransitive(d, e, c.end);
    }
  }

  lemma EvolvesItself(d: Dir)
    ensures Evolves(d, d)
  {
  }

  lemma {:induction false} CallReaches(d: Dir, r: Reader, c: Call)
    requires PollCall(d, r, c)
    ensures WellFormed(d) && WellFormed(c.end) && Evolves(d, c.end)
    ensures r.f.Some? ==> c.reader.f.Some? && Currents(c.reader)[0] == Currents(r)[0]
  {
    CallMoves(d, r, c);
    NextCurrent(r, c.reader, c.before, c.after);
    hide Delivered, Evolves, Polled;
    EvolvesTransitive(d, c.at, c.end);
  }

  /** A failing stat reads one file twice: renamed between the two opens, and not
      recognised as the file already open. */
  lemma {:induction false} FailedStatReadsTwice(c: Bytes, d: Dir, o: Opening, r: Reader)
    requires Complete(c) != []
    requires o == Opening(Dir([c], map[CurrentName := 0]), d, Opened(0), Opened(0), false)
    requires d == Step(o.d1, Rename) && StartsFrom(o, r)
    requires Sound(d, r) && r.done == [] && r.olderWhole
    ensures Opens(o) && r.f == r.older == Some(0)
    ensures r.lines == AllLines(c) + Complete(c[..r.offset]) && r.lines != Stream(d.contents, First(r), 0, r.offset)
  {
    hide Complete, AllLines, Rest;
    StepEvolves(o.d1, Rename);
    ReadTwice(d, r);
  }

  /** A reader opened and then polled any number of times, by a caller that notes
      the generation number it finds beside every line: `o` is what open's calls
      found, `d` and `r` what it left behind, and `calls` the polls. Any call may fail. */
  method OpenAndPoll(t: Tail, polls: nat)
    returns (lines: seq<Bytes>, gens: seq<nat>, ghost o: Opening, ghost d: Dir, ghost r: Reader, ghost calls: seq<Call>)
    requires t.Unopened() && t.disk.Valid()
    modifies t, t.disk
    ensures t.Valid() && lines == t.reader.lines && gens == t.reader.tags
    ensures |calls| == polls && Polls(d, r, calls)
    ensures DirAt(d, calls, polls) == t.disk.dir && ReaderAt(r, calls, polls) == t.reader
    ensures t.disk.reliable ==> o.compared && forall i :: 0 <= i < polls ==> calls[i].ok
    ensures Opens(o) && StartsFrom(o, r) && (t.disk.reliable ==> (r.older.Some? ==> r.olderWhole))
    ensures Attributed(t.disk.dir, t.reader)
    ensures InOrder(t.reader) <==> StartsInOrder(r) && forall i :: 0 <= i < polls ==> Kept(r, calls, i)
    ensures t.f.Some? && InOrder(t.reader) ==>
              lines == Stream(t.disk.dir.contents, First(t.reader), t.f.value, t.offset)
    ensures t.f.Some? && OlderFirst(t.reader) ==>
              (lines == Stream(t.disk.dir.contents, First(t.reader), t.f.value, t.offset) <==>
               OlderComplete(t.disk.dir.contents, r) &&
               forall i :: 0 <= i < polls ==> LosesNothing(t.disk.dir.contents, r, calls, i))
    ensures t.f.Some? && !OlderFirst(t.reader) ==>
              (lines == r.olderLines + Stream(t.disk.dir.contents, First(t.reader), t.f.value, t.offset) <==>
               forall i :: 0 <= i < polls ==> LosesNothing(t.disk.dir.contents, r, calls, i))
  {
    hide Sound, InOrder, Kept, Stream, LosesNothing, Attributed, Polls, StartsInOrder, First, AtMostOneFull;
    hide OlderFirst, Opens, StartsFrom, JustOpened;
    var out0, out1, err;
    out0, out1, err, o := t.Open();
    d, r, calls := t.disk.dir, t.reader, [];
    lines, gens := out0 + out1, Times(0, |out0|) + Times(1, |out1|);
    OpenedAttributed(d, r, out0, out1);
    StartInOrder(r);
    StartsOpened(o, r);
    NoPolls(d, r);
    for i := 0 to polls
      invariant t.Valid() && lines == t.reader.lines && gens == t.reader.tags
      invariant |calls| == i && Polls(d, r, calls)
      invariant DirAt(d, calls, i) == t.disk.dir && ReaderAt(r, calls, i) == t.reader
      invariant t.disk.reliable ==> forall j :: 0 <= j < i ==> calls[j].ok
      invariant Attributed(t.disk.dir, t.reader)
    {
      ghost var was, start := t.reader, t.disk.dir;
      var gen := t.gen;
      var before, after;
      ghost var at;
      before, after, err, at := t.Poll();
      lines, gens := lines + before + after, gens + Times(gen, |before|) + Times(t.gen, |after|);
      ghost var c := Call(at, err.Ok?, before, after, t.reader, t.disk.dir);
      PollsNext(d, r, calls, c);
      PolledAttributed(start, t.disk.dir, was, t.reader, before, after);
      calls := calls + [c];
    }
    RunKeepsOrderIff(d, r, calls, polls);
    if t.f.Some? {
      RunLosesNothingIff(d, r, calls);
      if InOrder(t.reader) {
        ExactlyOnce(t.disk.dir, t.reader);
      }
    }
  }

  lemma StartsOpened(o: Opening, r: Reader)
    requires StartsFrom(o, r) && r.done == []
    ensures JustOpened(r)
  {
  }

  lemma NoPolls(d: Dir, r: Reader)
    requires Sound(d, r)
    ensures Polls(d, r, [])
  {
  }
}
