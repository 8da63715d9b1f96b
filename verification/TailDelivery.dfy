/** What the tailing reader's invariants amount to over a whole run: exactly-once
    delivery, its exact condition, and the meaning of the generation number. */
module TailDelivery {
  import opened Lines
  import opened EventsDirectory
  import opened Options
  import opened EventsTail

  /** Every line of the files numbered `lo` up to, not including, `hi`. */
  function Between(contents: seq<Bytes>, lo: FileId, hi: FileId): seq<Bytes>
    requires hi <= |contents|
  {
    if lo >= hi then [] else Between(contents, lo, hi - 1) + AllLines(contents[hi - 1])
  }

  /** The lines of consecutive generations, the newest up to an offset. */
  function Stream(contents: seq<Bytes>, lo: FileId, f: FileId, offset: nat): seq<Bytes>
    requires f < |contents| && offset <= |contents[f]|
  {
    Between(contents, lo, f) + Complete(contents[f][..offset])
  }

  /** The older generation, if one was read, comes before every current one. */
  predicate OlderFirst(r: Reader) {
    r.older.Some? && Currents(r) != [] ==> r.older.value < Currents(r)[0]
  }

  /** The files read before the held one that come before it, in order. */
  function ReadBefore(r: Reader): seq<FileId> {
    (if r.older.Some? && OlderFirst(r) then [r.older.value] else []) + r.done
  }

  /** The first generation read, an older one read out of turn apart. */
  function First(r: Reader): FileId
    requires r.f.Some?
  {
    if r.older.Some? && OlderFirst(r) then r.older.value else Currents(r)[0]
  }

  /** The scan of the older generation has handed out all its lines. */
  ghost predicate OlderComplete(contents: seq<Bytes>, r: Reader) {
    r.older.Some? && r.older.value < |contents| ==> r.olderLines == AllLines(contents[r.older.value])
  }

  lemma EmptyPrefix(s: seq<Bytes>)
    ensures [] + s == s
  {
  }

  /** The files of the range that `ids` leaves out hold no line. */
  ghost predicate OnlyEmptySkipped(contents: seq<Bytes>, ids: seq<FileId>, lo: FileId, hi: FileId)
    requires hi <= |contents|
  {
    forall id :: lo <= id < hi && id !in ids ==> AllLines(contents[id]) == []
  }

  lemma EmptyRange(contents: seq<Bytes>, ids: seq<FileId>, lo: FileId)
    requires lo <= |contents|
    ensures OnlyEmptySkipped(contents, ids, lo, lo)
  {
  }

  lemma SkippedGrows(contents: seq<Bytes>, ids: seq<FileId>, lo: FileId, hi: FileId)
    requires lo < hi <= |contents| && hi - 1 !in ids
    ensures OnlyEmptySkipped(contents, ids, lo, hi) <==>
            OnlyEmptySkipped(contents, ids, lo, hi - 1) && AllLines(contents[hi - 1]) == []
  {
    hide AllLines;
  }

  lemma ReadGrows(contents: seq<Bytes>, ids: seq<FileId>, lo: FileId, hi: FileId)
    requires lo < hi <= |contents|
    ensures OnlyEmptySkipped(contents, ids + [hi - 1], lo, hi) <==> OnlyEmptySkipped(contents, ids, lo, hi - 1)
  {
    hide AllLines;
    assert forall id :: id in ids + [hi - 1] <==> id in ids || id == hi - 1;
  }

  /** Reading some of a range of files, in order, yields no more lines than reading
      all of it, and the very same ones exactly when those left out have none. */
  lemma {:induction false} SkippingIsHarmlessIff(contents: seq<Bytes>, ids: seq<FileId>, lo: FileId, hi: FileId)
    requires lo <= hi <= |contents| && Ascending(ids)
    requires forall i :: 0 <= i < |ids| ==> lo <= ids[i] < hi
    ensures |Finished(contents, ids)| <= |Between(contents, lo, hi)|
    ensures Finished(contents, ids) == Between(contents, lo, hi) <==> OnlyEmptySkipped(contents, ids, lo, hi)
    decreases hi
  {
    hide AllLines, OnlyEmptySkipped;
    if lo == hi {
      if ids != [] {
        RoomFor(ids, lo, hi);
      }
      EmptyRange(contents, ids, lo);
      return;
    }
    var n, last := |ids| - 1, AllLines(contents[hi - 1]);
    if ids != [] && ids[n] == hi - 1 {
      var rest := ids[..n];
      forall i | 0 <= i < |rest|
        ensures lo <= rest[i] < hi - 1
      {
        assert ids[i] < ids[n];
      }
      SkippingIsHarmlessIff(contents, rest, lo, hi - 1);
      SuffixCancels(Finished(contents, rest), Between(contents, lo, hi - 1), last);
      ReadGrows(contents, rest, lo, hi);
      assert ids == rest + [hi - 1];
    } else {
      LastBelow(ids, lo, hi);
      SkippingIsHarmlessIff(contents, ids, lo, hi - 1);
      assert hi - 1 !in ids;
      SkippedGrows(contents, ids, lo, hi);
      NoLonger(Finished(contents, ids), Between(contents, lo, hi - 1), last);
    }
  }

  lemma NoLonger(a: seq<Bytes>, b: seq<Bytes>, c: seq<Bytes>)
    requires |a| <= |b|
    ensures a == b + c <==> a == b && c == []
  {
    if a == b && c == [] {
      assert b + c == b;
    }
  }

  lemma RoomFor(ids: seq<FileId>, lo: FileId, hi: FileId)
    requires ids != [] && forall i :: 0 <= i < |ids| ==> lo <= ids[i] < hi
    ensures lo < hi
  {
    assert lo <= ids[0] < hi;
  }

  lemma LastBelow(ids: seq<FileId>, lo: FileId, hi: FileId)
    requires lo < hi && Ascending(ids) && forall i :: 0 <= i < |ids| ==> lo <= ids[i] < hi
    requires ids == [] || ids[|ids| - 1] != hi - 1
    ensures forall i :: 0 <= i < |ids| ==> lo <= ids[i] < hi - 1
  {
    forall i | 0 <= i < |ids|
      ensures ids[i] < hi - 1
    {
      assert i < |ids| - 1 ==> ids[i] < ids[|ids| - 1];
    }
  }

  lemma SuffixCancels(a: seq<Bytes>, b: seq<Bytes>, c: seq<Bytes>)
    ensures a + c == b + c <==> a == b
  {
    if a + c == b + c {
      assert |a| == |b|;
      assert (a + c)[..|a|] == a && (b + c)[..|b|] == b;
    }
  }

  lemma {:induction false} BetweenAcross(contents: seq<Bytes>, lo: FileId, m: FileId, hi: FileId)
    requires lo <= m <= hi <= |contents|
    ensures Between(contents, lo, hi) == Between(contents, lo, m) + Between(contents, m, hi)
  {
    hide AllLines;
    if m < hi {
      BetweenAcross(contents, lo, m, hi - 1);
      Associate(Between(contents, lo, m), Between(contents, m, hi - 1), AllLines(contents[hi - 1]));
    }
  }

  /** Neither part can make up for what is missing in the other. */
  lemma PartsMeet(a: seq<Bytes>, b: seq<Bytes>, a': seq<Bytes>, b': seq<Bytes>)
    requires a <= a' && |b| <= |b'|
    ensures a + b == a' + b' <==> a == a' && b == b'
  {
    if a + b == a' + b' {
      assert |a| == |a'|;
      assert (a + b)[|a|..] == b && (a' + b')[|a'|..] == b';
    }
  }

  lemma SkippedAfter(contents: seq<Bytes>, ids: seq<FileId>, lo: FileId, hi: FileId)
    requires lo < hi <= |contents|
    ensures OnlyEmptySkipped(contents, [lo] + ids, lo, hi) <==> OnlyEmptySkipped(contents, ids, lo + 1, hi)
  {
    hide AllLines;
    assert forall id :: id in [lo] + ids <==> id in ids || id == lo;
  }

  /** The files read under the current name against all from `lo` on. */
  lemma {:induction false} CurrentLinesIff(d: Dir, r: Reader, lo: FileId)
    requires Sound(d, r) && r.f.Some? && lo <= Currents(r)[0]
    ensures lo <= r.f.value
    ensures |Finished(d.contents, r.done)| <= |Between(d.contents, lo, r.f.value)|
    ensures Finished(d.contents, r.done) == Between(d.contents, lo, r.f.value) <==>
            OnlyEmptySkipped(d.contents, r.done, lo, r.f.value)
  {
    hide AllLines, Complete, Rest, Finished, Between;
    var cs, n := Currents(r), |r.done|;
    assert cs[n] == r.f.value && cs[..n] == r.done;
    forall i | 0 <= i < n
      ensures lo <= r.done[i] < r.f.value
    {
      assert cs[i] < cs[n] && (i > 0 ==> cs[0] < cs[i]);
    }
    assert n > 0 ==> cs[0] < cs[n];
    AscendingBefore(cs, n);
    SkippingIsHarmlessIff(d.contents, r.done, lo, r.f.value);
  }

  lemma AscendingBefore(ids: seq<FileId>, n: nat)
    requires Ascending(ids) && n <= |ids|
    ensures Ascending(ids[..n])
  {
  }

  /** Exactly once, and its exact condition, whatever open met: what was handed out
      is the lines of all generations from the first one read, in order, if and only
      if the older one's scan missed none of its lines and the generations never
      opened hold none. Where the older file was read out of turn, its lines come
      ahead of that, again or too early. */
  lemma {:induction false} NothingLostIff(d: Dir, r: Reader)
    requires Sound(d, r) && r.f.Some?
    ensures First(r) <= r.f.value
    ensures OlderFirst(r) ==>
              (r.lines == Stream(d.contents, First(r), r.f.value, r.offset) <==>
               OlderComplete(d.contents, r) && OnlyEmptySkipped(d.contents, ReadBefore(r), First(r), r.f.value))
    ensures !OlderFirst(r) ==>
              (r.lines == r.olderLines + Stream(d.contents, First(r), r.f.value, r.offset) <==>
               OnlyEmptySkipped(d.contents, ReadBefore(r), First(r), r.f.value))
  {
    hide AllLines, Complete, Rest, Finished, Between, Numbered, OnlyEmptySkipped;
    var finished, held := Finished(d.contents, r.done), Held(d.contents, r.f, r.offset);
    var c0, f := Currents(r)[0], r.f.value;
    if r.older.Some? && OlderFirst(r) {
      var o := r.older.value;
      CurrentLinesIff(d, r, o + 1);
      BetweenAcross(d.contents, o, o + 1, f);
      OneBetween(d.contents, o);
      PartsMeet(r.olderLines, finished, AllLines(d.contents[o]), Between(d.contents, o + 1, f));
      SuffixCancels(r.olderLines + finished, Between(d.contents, o, f), held);
      SkippedAfter(d.contents, r.done, o, f);
    } else {
      CurrentLinesIff(d, r, c0);
      assert ReadBefore(r) == r.done;
      SuffixCancels(finished, Between(d.contents, c0, f), held);
      Associate(r.olderLines, finished, held);
      PrefixCancels(r.olderLines, finished + held, Between(d.contents, c0, f) + held);
      EmptyPrefix(finished + held);
    }
  }

  lemma OneBetween(contents: seq<Bytes>, id: FileId)
    requires id < |contents|
    ensures Between(contents, id, id + 1) == AllLines(contents[id])
  {
    EmptyPrefix(AllLines(contents[id]));
  }

  lemma PrefixCancels(a: seq<Bytes>, b: seq<Bytes>, c: seq<Bytes>)
    ensures a + b == a + c <==> b == c
  {
    if a + b == a + c {
      assert (a + b)[|a|..] == b && (a + c)[|a|..] == c;
    }
  }

  /** One file under both names, not recognised as one: all its lines are handed out
      when it is read as the older one, and the complete ones again as they are read
      from the held one. */
  lemma {:induction false} ReadTwice(d: Dir, r: Reader)
    requires Sound(d, r) && r.f.Some? && r.older == r.f && r.olderWhole && r.done == []
    ensures var c := d.contents[r.f.value];
      && r.lines == AllLines(c) + Complete(c[..r.offset])
      && (Complete(c) != [] ==> r.lines != Stream(d.contents, First(r), r.f.value, r.offset))
  {
    hide AllLines, Complete, Rest;
    var c := d.contents[r.f.value];
    var held := Complete(c[..r.offset]);
    assert r.olderLines + [] + held == AllLines(c) + held;
    EmptyPrefix(held);
    if Complete(c) != [] {
      LinesAmong(c);
      assert |AllLines(c) + held| > |held|;
    }
  }

  lemma LinesAmong(c: Bytes)
    ensures Complete(c) <= AllLines(c)
  {
  }

  /** With no generation skipped, nothing is lost and nothing repeated. */
  lemma {:induction false} ExactlyOnce(d: Dir, r: Reader)
    requires Sound(d, r) && r.f.Some? && InOrder(r)
    ensures First(r) <= r.f.value
    ensures r.lines == Stream(d.contents, First(r), r.f.value, r.offset)
  {
    hide AllLines, Complete, Rest;
    NothingLostIff(d, r);
    var cs := Currents(r);
    forall id | First(r) <= id < r.f.value
      ensures id in ReadBefore(r)
    {
      if id >= cs[0] {
        assert cs[|r.done|] == r.f.value == cs[0] + |r.done|;
        assert cs[id - cs[0]] == id && cs[id - cs[0]] == r.done[id - cs[0]];
      }
    }
  }

  /** The bytes of the files numbered `lo` up to, not including, `hi`. */
  function BytesOf(contents: seq<Bytes>, lo: FileId, hi: FileId): Bytes
    requires hi <= |contents|
  {
    if lo >= hi then [] else BytesOf(contents, lo, hi - 1) + contents[hi - 1]
  }

  lemma {:induction false} BetweenIsTheBytes(contents: seq<Bytes>, lo: FileId, hi: FileId)
    requires hi <= |contents|
    ensures Flatten(Between(contents, lo, hi)) == BytesOf(contents, lo, hi)
  {
    hide AllLines;
    if lo < hi {
      BetweenIsTheBytes(contents, lo, hi - 1);
      FlattenAppend(Between(contents, lo, hi - 1), AllLines(contents[hi - 1]));
      AllLinesAreTheBytes(contents[hi - 1]);
    }
  }

  /** So what was handed out is, byte for byte, the files one after another, the held
      one up to the offset. */
  lemma EveryByteOnce(d: Dir, r: Reader)
    requires Sound(d, r) && r.f.Some? && InOrder(r)
    ensures First(r) <= r.f.value < |d.contents| && r.offset <= |d.contents[r.f.value]|
    ensures Flatten(r.lines) == BytesOf(d.contents, First(r), r.f.value) + d.contents[r.f.value][..r.offset]
  {
    hide AllLines, Complete, Rest, Finished, Flatten;
    ExactlyOnce(d, r);
    var held := d.contents[r.f.value][..r.offset];
    BetweenIsTheBytes(d.contents, First(r), r.f.value);
    FlattenAppend(Between(d.contents, First(r), r.f.value), Complete(held));
    LinesAreTheBytes(held);
    assert held == Flatten(Complete(held)) + Rest(held) == Flatten(Complete(held));
  }

  /** The newest generation the reader has opened. */
  function Newest(r: Reader): Option<FileId> {
    if r.f.Some? then r.f else r.older
  }

  /** The newest generation the reader has opened is under one of the two names, or
      there is no current file to move to. */
  predicate StillNamed(d: Dir, r: Reader) {
    CurrentName in d.at && Newest(r).Some? ==> Newest(r).value in d.at.Values
  }

  lemma NamesAre(d: Dir, id: FileId)
    requires WellFormed(d) && CurrentName in d.at
    ensures var k := d.at[CurrentName];
      id in d.at.Values <==> id == k || (OlderName in d.at && id + 1 == k)
  {
    if id in d.at.Values {
      var name :| name in d.at && d.at[name] == id;
      assert name == CurrentName || name == OlderName;
    } else {
      assert d.at[CurrentName] != id;
      assert OlderName in d.at ==> d.at[OlderName] != id;
    }
  }

  /** The newest file opened lies before the one that is current and not held. */
  lemma NewestIsOlder(d: Dir, r: Reader)
    requires Sound(d, r) && Newest(r).Some? && CurrentName in d.at
    ensures Newest(r).value <= d.at[CurrentName]
    ensures Newest(r) == r.f || Newest(r).value < d.at[CurrentName]
    ensures Newest(r).value < d.at[CurrentName] ==> OlderName in d.at
  {
    hide AllLines, Complete, Rest, Finished;
  }

  lemma {:induction false} NextCurrent(r: Reader, r': Reader, before: seq<Bytes>, after: seq<Bytes>)
    requires Polled(r, r', before, after) && r.gen == 1 + |r.done| && (r.f.None? ==> r.done == [])
    ensures r'.older == r.older && r'.olderWhole == r.olderWhole
    ensures r'.f == r.f ==> Currents(r') == Currents(r)
    ensures r'.f != r.f ==> r'.f.Some? && Currents(r') == Currents(r) + [r'.f.value]
  {
  }

  lemma InOrderNext(cs: seq<FileId>, k: FileId)
    requires cs != [] && forall i :: 0 <= i < |cs| ==> cs[i] == cs[0] + i
    ensures (forall i :: 0 <= i < |cs| + 1 ==> (cs + [k])[i] == (cs + [k])[0] + i) <==> k == cs[|cs| - 1] + 1
  {
    assert (cs + [k])[|cs|] == k;
  }

  /** The order after a poll is the order before it, plus the file taken up, if any. */
  lemma {:induction false} OrderNext(r: Reader, r': Reader, before: seq<Bytes>, after: seq<Bytes>)
    requires Polled(r, r', before, after) && r.gen == 1 + |r.done| && (r.f.None? ==> r.done == [])
    ensures InOrder(r') <==>
            InOrder(r) && (r'.f != r.f && Newest(r).Some? ==> r'.f.value == Newest(r).value + 1)
  {
    NextCurrent(r, r', before, after);
    hide Polled;
    var cs, cs' := Currents(r), Currents(r');
    if r'.f != r.f && cs != [] {
      assert cs'[0] == cs[0];
      if InOrder(r') {
        assert forall i :: 0 <= i < |cs| ==> cs'[i] == cs[i];
      }
      if InOrder(r) {
        InOrderNext(cs, r'.f.value);
      }
    }
  }

  /** Whether a poll keeps the order is decided by the directory in which it opens
      the path: it does so exactly when the newest file opened before is still under
      one of the two names there, or it does not move at all. A successful poll moves
      whenever there is another file. */
  lemma {:induction false} PollKeepsOrderIff(at: Dir, r: Reader, r': Reader, before: seq<Bytes>, after: seq<Bytes>)
    requires Sound(at, r) && Polled(r, r', before, after) && MovesTo(at, r, r')
    ensures InOrder(r') <==> InOrder(r) && (r'.f != r.f ==> StillNamed(at, r))
    ensures Follows(at, r, r') ==> (InOrder(r') <==> InOrder(r) && StillNamed(at, r))
  {
    hide AllLines, Complete, Rest, Finished, InOrder, Polled, Delivered;
    OrderNext(r, r', before, after);
    if CurrentName in at.at && Newest(r).Some? {
      NewestIsOlder(at, r);
      NamesAre(at, Newest(r).value);
    }
  }

  /** At most one file since the newest one opened is few enough, whatever else the
      Daemon does meanwhile. */
  lemma {:induction false} OneNewFileKeepsOrder(at: Dir, d: Dir, r: Reader)
    requires Sound(at, r) && Newest(r).Some? && WellFormed(d) && Evolves(at, d)
    requires |d.contents| <= Newest(r).value + 2
    ensures StillNamed(at, r)
  {
    hide AllLines, Complete, Rest, Finished, Delivered;
    if CurrentName in at.at {
      NewestIsOlder(at, r);
      NamesAre(at, Newest(r).value);
    }
  }

  /** The generation number under which the events of file `id` were handed out:
      0 for the older file scanned by open, else its place among the current ones. */
  ghost predicate HandedOutUnder(r: Reader, id: FileId, gen: nat) {
    || (gen == 0 && r.older == Some(id))
    || (1 <= gen <= |Currents(r)| && Currents(r)[gen - 1] == id)
  }

  /** The held file's own events carry the reader's generation number. */
  lemma {:induction false} HeldGeneration(d: Dir, r: Reader)
    requires Sound(d, r) && r.f.Some?
    ensures HandedOutUnder(r, r.f.value, r.gen)
  {
    hide AllLines, Complete, Rest, Finished;
  }

  /** rotatedAway, against whether the file holding the child_start was, as of the
      last file opened, under neither of the two names: they agree unless the very
      next file taken up was not the next one created. With no generation skipped
      they always do. */
  lemma {:induction false} RotatedAwayExact(d: Dir, r: Reader, id: FileId, startGen: nat)
    requires Sound(d, r) && OlderFirst(r) && r.f.Some?
    requires HandedOutUnder(r, id, startGen)
    ensures (r.gen - startGen >= 2 <==> id !in r.seen.Values) <==> !(r.gen - startGen == 1 && id + 1 < r.f.value)
    ensures InOrder(r) ==> (r.gen - startGen >= 2 <==> id !in r.seen.Values)
  {
    hide AllLines, Complete, Rest, Finished, Delivered;
    HandedOutBefore(d, r, id, startGen);
    SeenAre(d, r, id);
    if InOrder(r) {
      var cs := Currents(r);
      assert cs[|r.done|] == r.f.value == cs[0] + |r.done|;
      assert id == r.f.value - (r.gen - startGen);
    }
  }

  lemma SeenAre(d: Dir, r: Reader, id: FileId)
    requires Sound(d, r) && r.f.Some?
    ensures id in r.seen.Values <==> id == r.f.value || (OlderName in r.seen && id + 1 == r.f.value)
  {
    hide AllLines, Complete, Rest, Finished, Delivered;
    if id in r.seen.Values {
      var name :| name in r.seen && r.seen[name] == id;
      assert name == CurrentName || name == OlderName;
    } else {
      assert r.seen[CurrentName] != id;
      assert OlderName in r.seen ==> r.seen[OlderName] != id;
    }
  }

  /** Each generation on is at least one file on. */
  lemma {:induction false} HandedOutBefore(d: Dir, r: Reader, id: FileId, gen: nat)
    requires Sound(d, r) && OlderFirst(r) && r.f.Some? && HandedOutUnder(r, id, gen)
    ensures gen <= r.gen && id + (r.gen - gen) <= r.f.value
    ensures gen < r.gen ==> OlderName in r.seen
    ensures gen == r.gen ==> id == r.f.value
  {
    hide AllLines, Complete, Rest, Finished, Delivered;
    var cs := Currents(r);
    assert cs[|r.done|] == r.f.value;
    if gen == 0 {
      AscendingSteps(cs, 0, |r.done|);
    } else {
      AscendingSteps(cs, gen - 1, |r.done|);
    }
  }

  lemma {:induction false} AscendingSteps(ids: seq<FileId>, i: nat, j: nat)
    requires Ascending(ids) && i <= j < |ids|
    ensures ids[i] + (j - i) <= ids[j]
  {
    if i < j {
      AscendingSteps(ids, i, j - 1);
      assert ids[j - 1] < ids[j];
    }
  }

  /** r' is the outcome of a successful poll that opened the path in `d`. */
  ghost predicate PolledIn(d: Dir, r: Reader, r': Reader) {
    Follows(d, r, r') && exists before, after :: Polled(r, r', before, after)
  }

  /** One new generation between successive successful polls is not enough: polls
      that land in the gap between a rename and the next create find no current
      file, and the generation that came and went between them is never opened.
      Whatever poll does within its contract, that generation's lines are lost. */
  lemma {:induction false} GapPollsSkipAGeneration(a: Bytes, b: Bytes, d1: Dir, d2: Dir, d3: Dir,
                                                   r0: Reader, r1: Reader, r2: Reader, r3: Reader)
    requires Complete(b) != []
    requires d1 == Dir([a], map[OlderName := 0])
    requires d2 == Dir([a, b], map[OlderName := 1])
    requires d3 == Dir([a, b, []], map[OlderName := 1, CurrentName := 2])
    requires r0.f == Some(0) && r0.done == [] && r0.older.None?
    requires PolledIn(d1, r0, r1) && PolledIn(d2, r1, r2) && PolledIn(d3, r2, r3)
    requires Sound(d3, r3)
    ensures d1 == Run(Dir([a], map[CurrentName := 0]), [Rename])
    ensures d2 == Run(d1, [Create, Append(b), Rename])
    ensures d3 == Run(d2, [Create])
    ensures r3.f == Some(2) && ReadBefore(r3) == [0]
    ensures r3.lines != Stream(d3.contents, First(r3), 2, r3.offset)
  {
    hide Complete, Rest, FirstBreak, Finished, Run, Step, Sound, PolledIn, Stream, OnlyEmptySkipped, AllLines;
    GapRuns(a, b);
    PolledTo(d1, r0, r1);
    PolledTo(d2, r1, r2);
    PolledTo(d3, r2, r3);
    NothingLostIff(d3, r3);
    LineSkipped(d3.contents, b);
  }

  lemma {:induction false} PolledTo(d: Dir, r: Reader, r': Reader)
    requires PolledIn(d, r, r') && r.f.Some?
    ensures r'.f == (if CurrentName in d.at then Some(d.at[CurrentName]) else r.f) && r'.older == r.older
    ensures r'.done == if r'.f == r.f then r.done else r.done + [r.f.value]
  {
  }

  lemma LineSkipped(contents: seq<Bytes>, b: Bytes)
    requires |contents| == 3 && contents[1] == b && Complete(b) != []
    ensures !OnlyEmptySkipped(contents, [0], 0, 2)
  {
    LinesAmong(b);
    assert AllLines(contents[1]) != [] && 1 !in [0];
  }

  lemma {:induction false} GapRuns(a: Bytes, b: Bytes)
    ensures Run(Dir([a], map[CurrentName := 0]), [Rename]) == Dir([a], map[OlderName := 0])
    ensures Run(Dir([a], map[OlderName := 0]), [Create, Append(b), Rename]) == Dir([a, b], map[OlderName := 1])
    ensures Run(Dir([a, b], map[OlderName := 1]), [Create]) == Dir([a, b, []], map[OlderName := 1, CurrentName := 2])
  {
    hide Complete, Rest, FirstBreak;
    var created := Dir([a, []], map[OlderName := 0, CurrentName := 1]);
    assert Step(Dir([a], map[OlderName := 0]), Create) == created;
    EmptyLeft(b);
    assert created.contents[1 := [] + b] == [a, b];
    assert Step(created, Append(b)) == Dir([a, b], map[OlderName := 0, CurrentName := 1]);
    assert [Create, Append(b), Rename][1..] == [Append(b), Rename];
    assert [Append(b), Rename][1..] == [Rename];
    assert Run(Step(created, Append(b)), [Rename]) == Dir([a, b], map[OlderName := 1]);
    assert Step(Dir([a, b], map[OlderName := 1]), Create) == Dir([a, b, []], map[OlderName := 1, CurrentName := 2]);
  }
}
