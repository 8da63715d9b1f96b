/** The reader that follows the current Events file across the Daemon's rotation
    (dashboard/tail.go): a held descriptor, the offset consumed through the last
    newline, and a generation number. */
module EventsTail {
  import opened Lines
  import opened EventsDirectory
  import opened Options

  datatype Outcome = Ok | Failed

  /** The reader's fields together with the history they stand for: `older` is
      the file scanned as generation 0 (`olderWhole` when that scan reached its
      end), `done` the files finished after having been current, `seen` the names
      at the moment the held file was opened, `lines` everything handed out and
      `tags` the generation number each line was handed out under. */
  datatype Reader = Reader(
    f: Option<FileId>, offset: nat, gen: nat,
    older: Option<FileId>, olderLines: seq<Bytes>, olderWhole: bool,
    done: seq<FileId>, seen: map<Name, FileId>, lines: seq<Bytes>, tags: seq<nat>)

  function Times(x: nat, n: nat): (r: seq<nat>)
    ensures |r| == n
  {
    seq(n, _ => x)
  }

  /** The reader after `out` was handed out of the held file's next `n` bytes. */
  function Advanced(r: Reader, n: nat, out: seq<Bytes>): Reader {
    r.(offset := r.offset + n, lines := r.lines + out, tags := r.tags + Times(r.gen, |out|))
  }

  /** Every line of the given files, one file after another. */
  function Finished(contents: seq<Bytes>, ids: seq<FileId>): seq<Bytes>
    requires forall i :: 0 <= i < |ids| ==> ids[i] < |contents|
  {
    if ids == [] then []
    else Finished(contents, ids[..|ids| - 1]) + AllLines(contents[ids[|ids| - 1]])
  }

  /** The lines delivered from the held file so far. */
  function Held(contents: seq<Bytes>, f: Option<FileId>, offset: nat): seq<Bytes>
    requires f.Some? ==> f.value < |contents| && offset <= |contents[f.value]|
  {
    if f.Some? then Complete(contents[f.value][..offset]) else []
  }

  function Currents(r: Reader): seq<FileId> {
    r.done + if r.f.Some? then [r.f.value] else []
  }

  ghost predicate Ascending(ids: seq<FileId>) {
    forall i, j :: 0 <= i < j < |ids| ==> ids[i] < ids[j]
  }

  /** The delivery invariant: what was handed out is exactly the lines of the
      files read, in the order they were read, the held one up to the offset. */
  ghost predicate Delivered(d: Dir, r: Reader) {
    && (forall i :: 0 <= i < |r.done| ==> Closed(d, r.done[i]))
    && (r.older.Some? ==> Closed(d, r.older.value))
    && (r.older.None? ==> r.olderLines == [])
    && (r.older.Some? ==> r.olderLines <= AllLines(d.contents[r.older.value]))
    && (r.older.Some? && r.olderWhole ==> r.olderLines == AllLines(d.contents[r.older.value]))
    && (r.f.None? ==> r.offset == 0)
    && (r.f.Some? ==>
          && r.f.value < |d.contents|
          && r.offset <= |d.contents[r.f.value]|
          && Rest(d.contents[r.f.value][..r.offset]) == [])
    && r.lines == r.olderLines + Finished(d.contents, r.done) + Held(d.contents, r.f, r.offset)
  }

  /** The numbering invariant: generation 1 is the first file read under the
      current name, and each later one is one more. */
  ghost predicate Numbered(d: Dir, r: Reader) {
    && r.gen == 1 + |r.done|
    && Ascending(Currents(r))
    && (r.f.None? ==> r.done == [])
    && (r.f.Some? ==>
          && CurrentName in r.seen && r.seen[CurrentName] == r.f.value
          && (OlderName in r.seen ==> r.seen[OlderName] + 1 == r.f.value)
          && (|r.done| > 0 ==> OlderName in r.seen)
          && (r.older.Some? && r.older.value < r.f.value ==> OlderName in r.seen))
    && (r.f.Some? && OlderName in r.seen ==> OlderName in d.at)
    && (r.f.Some? && CurrentName in d.at && d.at[CurrentName] == r.f.value ==> d.at == r.seen)
    && (r.f.Some? && !(CurrentName in d.at && d.at[CurrentName] == r.f.value) ==> OlderName in d.at)
    && (r.older.Some? ==> OlderName in d.at)
  }

  /** Every line of the held file that was complete in `d` has been handed out. */
  ghost predicate Covers(d: Dir, e: Dir, r: Reader) {
    && r.f.Some?
    && r.f.value < |d.contents|
    && r.f.value < |e.contents|
    && r.offset <= |e.contents[r.f.value]|
    && Complete(d.contents[r.f.value]) <= Held(e.contents, r.f, r.offset)
  }

  ghost predicate Sound(d: Dir, r: Reader) {
    WellFormed(d) && Delivered(d, r) && Numbered(d, r)
  }

  lemma {:induction false} FinishedStable(d: Dir, e: Dir, ids: seq<FileId>)
    requires forall i :: 0 <= i < |ids| ==> Closed(d, ids[i])
    requires Evolves(d, e)
    ensures forall i :: 0 <= i < |ids| ==> Closed(e, ids[i])
    ensures Finished(d.contents, ids) == Finished(e.contents, ids)
  {
    if ids != [] {
      FinishedStable(d, e, ids[..|ids| - 1]);
      assert Closed(d, ids[|ids| - 1]);
    }
  }

  /** Nothing the Daemon does between two calls disturbs a sound reader. */
  lemma DaemonKeepsReaderSound(d: Dir, e: Dir, r: Reader)
    requires Sound(d, r) && WellFormed(e) && Evolves(d, e)
    ensures Sound(e, r)
  {
    FinishedStable(d, e, r.done);
    if r.older.Some? {
      assert Closed(d, r.older.value);
    }
    if r.f.Some? {
      assert d.contents[r.f.value] <= e.contents[r.f.value];
      assert e.contents[r.f.value][..r.offset] == d.contents[r.f.value][..r.offset];
    }
  }

  /** A scan of `c` from `from` to `to` that handed out `out`. */
  ghost predicate Scanned(c: Bytes, from: nat, to: nat, out: seq<Bytes>) {
    && from <= to <= |c|
    && out == Complete(c[from..to])
    && Rest(c[from..to]) == []
  }

  lemma ScannedNothing(c: Bytes, from: nat)
    requires from <= |c|
    ensures Scanned(c, from, from, [])
  {
    assert c[from..from] == [];
  }

  lemma ScannedStable(c: Bytes, c': Bytes, from: nat, to: nat, out: seq<Bytes>)
    requires Scanned(c, from, to, out) && c <= c'
    ensures Scanned(c', from, to, out)
  {
    assert c'[from..to] == c[from..to];
  }

  /** A scan under way since `start`. */
  ghost predicate Scanning(start: Dir, d: Dir, id: FileId, from: nat, to: nat, out: seq<Bytes>) {
    && id < |start.contents|
    && id < |d.contents|
    && start.contents[id] <= d.contents[id]
    && Scanned(d.contents[id], from, to, out)
    && to <= |d.contents[id]|
    && (Closed(start, id) ==> Closed(d, id))
  }

  lemma ScanningStable(start: Dir, d: Dir, e: Dir, id: FileId, from: nat, to: nat, out: seq<Bytes>)
    requires Scanning(start, d, id, from, to, out) && Evolves(d, e)
    ensures Scanning(start, e, id, from, to, out)
  {
    hide Complete, Rest, FirstBreak, AllLines;
    FileEvolves(d, e, id);
    ScannedStable(d.contents[id], e.contents[id], from, to, out);
  }

  lemma ScannedLine(c: Bytes, from: nat, to: nat, next: nat, out: seq<Bytes>)
    requires Scanned(c, from, to, out) && to < next <= |c|
    requires FirstBreak(c[to..next]) == next - to - 1
    ensures Scanned(c, from, next, out + [c[to..next]])
  {
    Split(c, from, to, next);
    AppendLine(c[from..to], c[to..next]);
  }

  lemma ScannedToEnd(was: Bytes, c: Bytes, from: nat, to: nat, out: seq<Bytes>)
    requires Scanned(c, from, to, out) && FirstBreak(c[to..]) == |c[to..]|
    requires from <= |was| && was <= c
    ensures out + (if c[to..] == [] then [] else [c[to..]]) == AllLines(c[from..])
    ensures Complete(was[from..]) <= out
  {
    Split(c, from, to, |c|);
    assert c[from..|c|] == c[from..];
    assert c[to..|c|] == c[to..];
    AppendFragment(c[from..to], c[to..]);
    CompleteMonotone(was[from..], c[from..]);
  }

  /** Handing out the lines of a stretch that begins on a line boundary extends
      what was handed out of the file before it. */
  lemma ScanExtendsHeld(c: Bytes, from: nat, to: nat, out: seq<Bytes>)
    requires from <= to <= |c| && Rest(c[..from]) == []
    requires Scanned(c, from, to, out)
    ensures Complete(c[..to]) == Complete(c[..from]) + out
    ensures Rest(c[..to]) == []
  {
    LinesAcrossBefore(c, from, to);
  }

  lemma ScanFinishesHeld(c: Bytes, from: nat, out: seq<Bytes>)
    requires from <= |c| && Rest(c[..from]) == []
    requires out == AllLines(c[from..])
    ensures AllLines(c) == Complete(c[..from]) + out
  {
    LinesAcross(c, from);
  }

  /** The read of file `id`, whose bytes are `c`, that failed got to some byte; every
      line complete by there, from `from` on, is in `out`. */
  ghost predicate StoppedAt(x: Fault, id: FileId, c: Bytes, from: nat, out: seq<Bytes>) {
    x.ReadFault? && x.id == id && from <= x.to <= |c| && out == Complete(c[from..x.to])
  }

  /** One more call failed, and it was that read. */
  ghost predicate FailedAt(was: seq<Fault>, now: seq<Fault>, id: FileId, c: Bytes, from: nat, out: seq<Bytes>) {
    |now| == |was| + 1 && was <= now && StoppedAt(now[|was|], id, c, from, out)
  }

  /** One more call failed, and it was no read. */
  ghost predicate OtherFailed(was: seq<Fault>, now: seq<Fault>) {
    |now| == |was| + 1 && was <= now && !now[|was|].ReadFault?
  }

  /** One of the calls that failed since was that read. */
  ghost predicate FailedSince(was: seq<Fault>, now: seq<Fault>, id: FileId, c: Bytes, from: nat, out: seq<Bytes>) {
    was <= now && exists k :: |was| <= k < |now| && StoppedAt(now[k], id, c, from, out)
  }

  lemma FailedOnce(was: seq<Fault>, now: seq<Fault>, id: FileId, c: Bytes, from: nat, out: seq<Bytes>)
    requires FailedAt(was, now, id, c, from, out)
    ensures FailedSince(was, now, id, c, from, out)
  {
    hide StoppedAt;
  }

  lemma FailedLater(was: seq<Fault>, a: seq<Fault>, b: seq<Fault>, now: seq<Fault>,
                    id: FileId, c: Bytes, c': Bytes, from: nat, out: seq<Bytes>)
    requires was <= a && FailedSince(a, b, id, c, from, out) && b <= now && c <= c'
    ensures FailedSince(was, now, id, c', from, out)
  {
    hide Complete;
    var k :| |a| <= k < |b| && StoppedAt(b[k], id, c, from, out);
    assert c'[from..b[k].to] == c[from..b[k].to];
    assert StoppedAt(now[k], id, c', from, out);
  }

  /** One more call failed, a read of the held file: every line complete by where it
      got to has been handed out. */
  ghost predicate HeldFailed(was: seq<Fault>, now: seq<Fault>, d: Dir, f: Option<FileId>, offset: nat) {
    && f.Some? && f.value < |d.contents| && offset <= |d.contents[f.value]|
    && FailedAt(was, now, f.value, d.contents[f.value], 0, Held(d.contents, f, offset))
  }

  lemma HeldFailedIs(was: seq<Fault>, now: seq<Fault>, d: Dir, r: Reader)
    requires HeldFailed(was, now, d, r.f, r.offset)
    ensures was < now && HeldSince(was, now, d, r)
  {
    hide Held, StoppedAt;
    FailedOnce(was, now, r.f.value, d.contents[r.f.value], 0, Held(d.contents, r.f, r.offset));
  }

  /** A read of the held file failed since, and every line complete by where it got
      to has been handed out. */
  ghost predicate HeldSince(was: seq<Fault>, now: seq<Fault>, d: Dir, r: Reader) {
    && r.f.Some? && r.f.value < |d.contents| && r.offset <= |d.contents[r.f.value]|
    && FailedSince(was, now, r.f.value, d.contents[r.f.value], 0, Held(d.contents, r.f, r.offset))
  }

  /** The older file was handed out whole, or up to where the read of it failed. */
  ghost predicate OlderRead(was: seq<Fault>, now: seq<Fault>, d: Dir, r: Reader) {
    r.older.Some? ==>
      && r.older.value < |d.contents|
      && (r.olderWhole || FailedSince(was, now, r.older.value, d.contents[r.older.value], 0, r.olderLines))
  }

  lemma OlderReadLater(was: seq<Fault>, a: seq<Fault>, b: seq<Fault>, now: seq<Fault>,
                       d: Dir, e: Dir, r: Reader, r': Reader)
    requires was <= a && OlderRead(a, b, d, r) && b <= now && Evolves(d, e)
    requires r'.older == r.older && r'.olderLines == r.olderLines && r'.olderWhole == r.olderWhole
    ensures OlderRead(was, now, e, r')
  {
    hide FailedSince;
    if r.older.Some? && !r.olderWhole {
      FailedLater(was, a, b, now, r.older.value, d.contents[r.older.value], e.contents[r.older.value], 0, r.olderLines);
    }
  }

  lemma HeldSinceEarlier(was: seq<Fault>, a: seq<Fault>, now: seq<Fault>, d: Dir, r: Reader)
    requires was <= a
    ensures HeldSince(a, now, d, r) ==> HeldSince(was, now, d, r)
  {
    hide FailedSince, Held;
    if HeldSince(a, now, d, r) {
      var c := d.contents[r.f.value];
      FailedLater(was, a, now, now, r.f.value, c, c, 0, Held(d.contents, r.f, r.offset));
    }
  }

  /** What open's two scans leave, by the end of it. */
  lemma ReadSinceOpen(f0: seq<Fault>, f1: seq<Fault>, f2: seq<Fault>, f3: seq<Fault>,
                      d: Dir, e: Dir, r: Reader, r': Reader)
    requires f0 <= f1 <= f2 <= f3 && Evolves(d, e) && OlderRead(f1, f2, d, r)
    requires r'.older == r.older && r'.olderLines == r.olderLines && r'.olderWhole == r.olderWhole
    ensures f0 <= f3 && (f3 == f0 ==> f0 == f1 == f2)
    ensures OlderRead(f0, f3, e, r') && (HeldSince(f2, f3, e, r') ==> HeldSince(f0, f3, e, r'))
  {
    OlderReadLater(f0, f1, f2, f3, d, e, r, r');
    HeldSinceEarlier(f0, f2, f3, e, r');
    hide OlderRead, HeldSince;
  }

  /** A fragment without a newline adds no complete line. */
  lemma ScannedFragment(c: Bytes, from: nat, to: nat, end: nat, out: seq<Bytes>)
    requires Scanned(c, from, to, out) && to <= end <= |c|
    requires FirstBreak(c[to..end]) == |c[to..end]|
    ensures out == Complete(c[from..end])
  {
    Split(c, from, to, end);
    AppendFragment(c[from..to], c[to..end]);
  }

  /** scanEvents: hands out the lines of `id` from `from` on and counts the bytes
      consumed, through the last newline, or to the end of the file when `final`. */
  method ScanEvents(disk: Directory, id: FileId, from: nat, final: bool)
    returns (out: seq<Bytes>, consumed: nat, err: Outcome)
    requires disk.Valid() && id < |disk.dir.contents|
    requires from <= |disk.dir.contents[id]|
    requires final ==> Closed(disk.dir, id)
    modifies disk`dir, disk`script, disk`faults
    ensures disk.Valid() && Passed(old(disk.dir), old(disk.script), disk.dir, disk.script)
    ensures id < |disk.dir.contents| && from + consumed <= |disk.dir.contents[id]|
    ensures !(final && err.Ok?) ==> Scanned(disk.dir.contents[id], from, from + consumed, out)
    ensures final && err.Ok? ==>
              out == AllLines(disk.dir.contents[id][from..]) && from + consumed == |disk.dir.contents[id]|
    ensures err.Ok? ==> Complete(old(disk.dir.contents)[id][from..]) <= out
    ensures err.Ok? ==> disk.faults == old(disk.faults)
    ensures err.Failed? ==> FailedAt(old(disk.faults), disk.faults, id, disk.dir.contents[id], from, out)
    ensures disk.reliable ==> err.Ok?
  {
    hide Complete, Rest, FirstBreak, AllLines, Scanned, Evolves;
    ghost var start, startScript := disk.dir, disk.script;
    out, consumed := [], 0;
    PassedReflexive(start, startScript);
    ScannedNothing(start.contents[id], from);
    while true
      invariant disk.Valid()
      invariant Passed(start, startScript, disk.dir, disk.script)
      invariant Scanning(start, disk.dir, id, from, from + consumed, out)
      invariant disk.faults == old(disk.faults)
      decreases |disk.script|, |disk.dir.contents[id]| - consumed
    {
      ghost var before, beforeScript := disk.dir, disk.script;
      var line, readErr := disk.ReadLine(id, from + consumed);
      PassedTransitive(start, startScript, before, beforeScript, disk.dir, disk.script);
      ScanningStable(start, before, disk.dir, id, from, from + consumed, out);
      ghost var c := disk.dir.contents[id];
      if readErr.NoError? {
        ScannedLine(c, from, from + consumed, from + (consumed + |line|), out);
        out, consumed := out + [line], consumed + |line|;
        continue;
      }
      if readErr.EndOfFile? {
        ScannedToEnd(start.contents[id], c, from, from + consumed, out);
        if final {
          consumed := consumed + |line|;
          // An empty last line decodes to no event.
          if line != [] {
            out := out + [line];
          }
        }
        return out, consumed, Ok;
      }
      ScannedFragment(c, from, from + consumed, from + consumed + |line|, out);
      return out, consumed, Failed;
    }
  }

  /** Advancing through the held file keeps the reader sound. */
  lemma AdvanceHeld(d: Dir, r: Reader, n: nat, out: seq<Bytes>)
    requires Sound(d, r) && r.f.Some?
    requires Scanned(d.contents[r.f.value], r.offset, r.offset + n, out)
    ensures Sound(d, Advanced(r, n, out))
  {
    hide Complete, Rest, FirstBreak, AllLines, Finished;
    var c := d.contents[r.f.value];
    ScanExtendsHeld(c, r.offset, r.offset + n, out);
    Regroup(r.olderLines, Finished(d.contents, r.done), Complete(c[..r.offset]), out);
  }

  /** Draining the held file while the Daemon took `d` to `e`. */
  lemma DrainHeld(d: Dir, e: Dir, r: Reader, r': Reader, n: nat, out: seq<Bytes>)
    requires Sound(d, r) && r.f.Some? && WellFormed(e) && Evolves(d, e)
    requires r.f.value < |e.contents| && Scanned(e.contents[r.f.value], r.offset, r.offset + n, out)
    requires r' == Advanced(r, n, out)
    ensures Sound(e, r')
    ensures Held(e.contents, r'.f, r'.offset) == Held(d.contents, r.f, r.offset) + out
  {
    hide Complete, Rest, FirstBreak, AllLines, Finished;
    DaemonKeepsReaderSound(d, e, r);
    AdvanceHeld(e, r, n, out);
    HeldGrows(d, e, r, n, out);
  }

  lemma NothingHeld(d: Dir, r: Reader)
    requires Delivered(d, r) && r.offset == 0
    ensures Held(d.contents, r.f, 0) == []
  {
    if r.f.Some? {
      assert d.contents[r.f.value][..0] == [];
    }
  }

  lemma HeldGrows(d: Dir, e: Dir, r: Reader, n: nat, out: seq<Bytes>)
    requires Delivered(d, r) && r.f.Some? && Evolves(d, e)
    requires r.f.value < |e.contents| && Scanned(e.contents[r.f.value], r.offset, r.offset + n, out)
    ensures Held(e.contents, r.f, r.offset + n) == Held(d.contents, r.f, r.offset) + out
  {
    hide Complete, Rest, FirstBreak, AllLines, Finished;
    var c, c' := d.contents[r.f.value], e.contents[r.f.value];
    assert c'[..r.offset] == c[..r.offset];
    ScanExtendsHeld(c', r.offset, r.offset + n, out);
  }

  /** A drain whose read failed leaves no line behind that was complete by there. */
  lemma HeldThrough(d: Dir, e: Dir, r: Reader, n: nat, out: seq<Bytes>, was: seq<Fault>, now: seq<Fault>)
    requires Delivered(d, r) && r.f.Some? && Evolves(d, e)
    requires r.f.value < |e.contents| && Scanned(e.contents[r.f.value], r.offset, r.offset + n, out)
    requires FailedAt(was, now, r.f.value, e.contents[r.f.value], r.offset, out)
    ensures HeldFailed(was, now, e, r.f, r.offset + n)
  {
    hide Complete, Rest, FirstBreak, AllLines, Finished;
    var c, c', to := d.contents[r.f.value], e.contents[r.f.value], now[|was|].to;
    assert c'[..r.offset] == c[..r.offset];
    ScanExtendsHeld(c', r.offset, r.offset + n, out);
    LinesAcrossBefore(c', r.offset, to);
    assert c'[0..to] == c'[..to];
  }

  /** A drain that reached the end of the file leaves no complete line behind. */
  lemma DrainCovers(d: Dir, e: Dir, r: Reader, r': Reader, n: nat, out: seq<Bytes>)
    requires Sound(d, r) && r.f.Some? && Evolves(d, e)
    requires r.f.value < |e.contents| && Scanned(e.contents[r.f.value], r.offset, r.offset + n, out)
    requires Complete(d.contents[r.f.value][r.offset..]) <= out
    requires r'.f == r.f && r'.offset == r.offset + n
    ensures Covers(d, e, r')
  {
    hide Complete, Rest, FirstBreak, AllLines, Finished;
    CaughtUp(d.contents[r.f.value], e.contents[r.f.value], r.offset, r.offset + n, out);
  }

  /** `k` was opened as the current file when the names were `names`. */
  ghost predicate MayHold(d: Dir, r: Reader, k: FileId, names: map<Name, FileId>) {
    && k < |d.contents|
    && CurrentName in names && names[CurrentName] == k
    && (OlderName in names ==> names[OlderName] + 1 == k && OlderName in d.at)
    && (r.older.Some? && r.older.value < k ==> OlderName in names)
    && (CurrentName in d.at && d.at[CurrentName] == k ==> d.at == names)
    && (!(CurrentName in d.at && d.at[CurrentName] == k) ==> OlderName in d.at)
  }

  /** The reader after `out`, the rest of the held file, and with `k` held instead. */
  function Crossed(r: Reader, k: FileId, names: map<Name, FileId>, out: seq<Bytes>): Reader
    requires r.f.Some?
  {
    r.(f := Some(k), offset := 0, gen := r.gen + 1, done := r.done + [r.f.value], seen := names,
       lines := r.lines + out, tags := r.tags + Times(r.gen, |out|))
  }

  /** Finishing the held file and taking up the newer one at the current name. */
  lemma CrossRotation(d: Dir, r: Reader, k: FileId, names: map<Name, FileId>, out: seq<Bytes>)
    requires Sound(d, r) && r.f.Some? && r.f.value < k < |d.contents|
    requires Closed(d, r.f.value) && out == AllLines(d.contents[r.f.value][r.offset..])
    requires MayHold(d, r, k, names) && OlderName in names
    ensures Sound(d, Crossed(r, k, names, out))
  {
    hide Delivered, Numbered, MayHold;
    CrossDelivered(d, r, k, names, out);
    CrossNumbered(d, r, k, names, out);
  }

  lemma CrossNumbered(d: Dir, r: Reader, k: FileId, names: map<Name, FileId>, out: seq<Bytes>)
    requires WellFormed(d) && Numbered(d, r) && r.f.Some? && r.f.value < k
    requires MayHold(d, r, k, names) && OlderName in names
    ensures Numbered(d, Crossed(r, k, names, out))
  {
    hide Complete, Rest, FirstBreak, AllLines, Finished;
    AscendingNext(Currents(r), k);
    assert Currents(Crossed(r, k, names, out)) == Currents(r) + [k];
  }

  lemma AscendingNext(ids: seq<FileId>, k: FileId)
    requires Ascending(ids) && (ids != [] ==> ids[|ids| - 1] < k)
    ensures Ascending(ids + [k])
  {
    forall i | 0 <= i < |ids|
      ensures ids[i] < k
    {
      assert i < |ids| - 1 ==> ids[i] < ids[|ids| - 1];
    }
  }

  lemma CrossDelivered(d: Dir, r: Reader, k: FileId, names: map<Name, FileId>, out: seq<Bytes>)
    requires Delivered(d, r) && r.f.Some? && k < |d.contents|
    requires Closed(d, r.f.value) && out == AllLines(d.contents[r.f.value][r.offset..])
    ensures Delivered(d, Crossed(r, k, names, out))
  {
    var c, done := d.contents[r.f.value], r.done + [r.f.value];
    var finished, held := Finished(d.contents, r.done), Complete(c[..r.offset]);
    ScanFinishesHeld(c, r.offset, out);
    assert done[..|done| - 1] == r.done;
    assert Finished(d.contents, done) == finished + (held + out);
    assert d.contents[k][..0] == [];
    Regroup(r.olderLines, finished, held, out);
  }

  lemma Regroup(a: seq<Bytes>, b: seq<Bytes>, c: seq<Bytes>, d: seq<Bytes>)
    ensures a + b + c + d == a + b + (c + d)
    ensures a + b + c + d == a + (b + (c + d)) + []
  {
  }

  /** Taking up the current file when none was held. */
  lemma TakeFirst(d: Dir, r: Reader, k: FileId, names: map<Name, FileId>)
    requires Sound(d, r) && r.f.None? && MayHold(d, r, k, names)
    ensures Sound(d, r.(f := Some(k), seen := names))
  {
    assert d.contents[k][..0] == [];
  }

  /** No generation was skipped: the files read under the current name were
      created one after another, right after the older one, which was read whole. */
  ghost predicate InOrder(r: Reader) {
    && (forall i :: 0 <= i < |Currents(r)| ==> Currents(r)[i] == Currents(r)[0] + i)
    && (r.older.Some? ==> r.olderWhole)
    && (r.older.Some? && Currents(r) != [] ==> r.older.value + 1 == Currents(r)[0])
  }

  /** InOrder for a reader that has just been opened. */
  ghost predicate StartsInOrder(r: Reader) {
    && r.done == []
    && (r.older.Some? ==> r.olderWhole)
    && (r.older.Some? && r.f.Some? ==> r.older.value + 1 == r.f.value)
  }

  lemma StartInOrder(r: Reader)
    requires r.done == []
    ensures InOrder(r) <==> StartsInOrder(r)
  {
  }

  lemma OlderScanned(d: Dir, r: Reader)
    requires WellFormed(d) && r.f.None? && r.offset == 0 && r.gen == 1 && r.done == []
    requires r.lines == r.olderLines
    requires r.older.None? ==> r.olderLines == []
    requires r.older.Some? ==>
               && Closed(d, r.older.value) && OlderName in d.at
               && r.olderLines <= AllLines(d.contents[r.older.value])
               && (r.olderWhole ==> r.olderLines == AllLines(d.contents[r.older.value]))
    ensures Sound(d, r)
  {
  }

  /** What a scan from the start of a file may have handed out. */
  lemma ScannedFromStart(c: Bytes, n: nat, out: seq<Bytes>)
    requires Scanned(c, 0, n, out) || out == AllLines(c[0..])
    ensures out <= AllLines(c)
  {
    assert c[0..] == c;
    if out != AllLines(c) {
      CompleteMonotone(c[0..n], c);
    }
  }

  /** From `d` to `e` no file was created, or one was and is current still: a full
      rotation at most. */
  ghost predicate AtMostOneFull(d: Dir, e: Dir) {
    || |e.contents| == |d.contents|
    || (|e.contents| == |d.contents| + 1 && CurrentName in e.at)
  }

  /** What the names tell about the file opened as current in `d1`, when the
      older name was opened later, in `d2`. */
  lemma OpenedNames(d1: Dir, d2: Dir, d: Dir, k: FileId, named: OpenResult, r: Reader)
    requires WellFormed(d1) && WellFormed(d2) && WellFormed(d)
    requires Evolves(d1, d2) && Evolves(d2, d) && Evolves(d1, d)
    requires CurrentName in d1.at && d1.at[CurrentName] == k
    requires named.Opened? ==> OlderName in d2.at && d2.at[OlderName] == named.id
    requires r.older.Some? ==> named.Opened? && r.older.value == named.id
    ensures MayHold(d, r, k, d1.at)
    ensures r.older.Some? && r.older.value < k ==> r.older.value + 1 == k
    ensures r.older.Some? ==> (r.older.value <= k <==> AtMostOneFull(d1, d2))
  {
  }

  /** A file opened as current in `d1` while an earlier one was held. */
  lemma RotatedNames(d1: Dir, d: Dir, r: Reader, k: FileId)
    requires WellFormed(d1) && WellFormed(d) && Evolves(d1, d)
    requires Sound(d1, r) && r.f.Some?
    requires CurrentName in d1.at && d1.at[CurrentName] == k && k != r.f.value
    ensures Closed(d, r.f.value) && r.f.value < k
    ensures MayHold(d, r, k, d1.at) && OlderName in d1.at
  {
    hide Complete, Rest, FirstBreak, AllLines, Finished;
    assert Closed(d1, r.f.value);
  }

  /** The held file, rotated away since before `d0`, was read to its end while the
      Daemon took `d` to `e`. */
  lemma MayCross(d0: Dir, d: Dir, e: Dir, r: Reader, k: FileId, out: seq<Bytes>)
    requires WellFormed(d0) && Evolves(d0, d) && Evolves(d, e)
    requires Sound(d0, r) && Sound(d, r) && Sound(e, r) && r.f.Some?
    requires CurrentName in d0.at && d0.at[CurrentName] == k && k != r.f.value
    requires out == AllLines(e.contents[r.f.value][r.offset..])
    ensures Sound(e, Crossed(r, k, d0.at, out))
  {
    hide Complete, Rest, FirstBreak, AllLines, Finished;
    EvolvesTransitive(d0, d, e);
    RotatedNames(d0, e, r, k);
    CrossRotation(e, r, k, d0.at, out);
  }

  /** A file opened as current in `d` while none was held. */
  lemma FirstNames(d: Dir, r: Reader, k: FileId)
    requires Sound(d, r) && r.f.None?
    requires CurrentName in d.at && d.at[CurrentName] == k
    ensures MayHold(d, r, k, d.at)
  {
    hide Complete, Rest, FirstBreak, AllLines, Finished;
  }

  /** How one poll may change the reader: it keeps the held file, takes up a first
      one, or finishes the held file and takes up a newer one, one generation on. */
  ghost predicate Polled(r: Reader, r': Reader, before: seq<Bytes>, after: seq<Bytes>) {
    && r'.older == r.older && r'.olderLines == r.olderLines && r'.olderWhole == r.olderWhole
    && r'.lines == r.lines + before + after
    && r'.tags == r.tags + Times(r.gen, |before|) + Times(r'.gen, |after|)
    && (|| (r'.f == r.f && r'.done == r.done && r'.gen == r.gen && r'.seen == r.seen && after == [])
        || (r.f.None? && r'.f.Some? && r'.done == r.done && r'.gen == r.gen && before == [])
        || (r.f.Some? && r'.f.Some? && r.f.value < r'.f.value
            && r'.done == r.done + [r.f.value] && r'.gen == r.gen + 1))
  }

  /** A successful poll ends holding the current file, when there is one. */
  ghost predicate Follows(d: Dir, r: Reader, r': Reader) {
    r'.f == if CurrentName in d.at then Some(d.at[CurrentName]) else r.f
  }

  /** A poll stays with the file it held or takes up the one that was current in `d`. */
  ghost predicate MovesTo(d: Dir, r: Reader, r': Reader) {
    r'.f == r.f || (CurrentName in d.at && r'.f == Some(d.at[CurrentName]))
  }

  lemma PolledNothing(r: Reader)
    ensures Polled(r, r, [], [])
  {
    assert r.lines + [] == r.lines;
    assert r.tags + [] == r.tags;
  }

  lemma PolledInPlace(r: Reader, r': Reader, before: seq<Bytes>)
    requires r'.offset >= r.offset && r' == Advanced(r, r'.offset - r.offset, before)
    ensures Polled(r, r', before, [])
  {
    hide Complete, Rest, FirstBreak, AllLines, Finished;
  }

  lemma PolledFirst(r: Reader, r': Reader, after: seq<Bytes>)
    requires r.f.None? && r'.f.Some?
    requires r' == Advanced(r.(f := r'.f, seen := r'.seen, offset := 0), r'.offset, after)
    ensures Polled(r, r', [], after)
  {
    hide Complete, Rest, FirstBreak, AllLines, Finished;
    assert r.lines + [] == r.lines;
    assert r.tags + [] == r.tags;
  }

  lemma PolledAcross(r: Reader, m: Reader, r': Reader, before: seq<Bytes>, after: seq<Bytes>)
    requires r.f.Some? && m.f.Some? && r.f.value < m.f.value && m == Crossed(r, m.f.value, m.seen, before)
    requires r' == Advanced(m, r'.offset, after)
    ensures Polled(r, r', before, after)
  {
    hide Complete, Rest, FirstBreak, AllLines, Finished;
  }

  /** Every line of the held file complete in `d` has been handed out. */
  ghost predicate CaughtUpSince(d: Dir, e: Dir, r: Reader) {
    r.f.Some? && r.f.value < |d.contents| ==> Covers(d, e, r)
  }

  lemma CoversEarlier(d: Dir, m: Dir, e: Dir, r: Reader)
    requires Evolves(d, m) && r.f.Some?
    ensures Covers(m, e, r) ==> CaughtUpSince(d, e, r)
  {
    if Covers(m, e, r) && r.f.value < |d.contents| {
      assert d.contents[r.f.value] <= m.contents[r.f.value];
      CompleteMonotone(d.contents[r.f.value], m.contents[r.f.value]);
    }
  }

  lemma CaughtUpEarlier(d: Dir, m: Dir, e: Dir, r: Reader)
    requires Evolves(d, m) && r.f.Some?
    ensures CaughtUpSince(m, e, r) ==> CaughtUpSince(d, e, r)
  {
    hide Complete, Rest, FirstBreak, AllLines, Finished;
    if r.f.value < |d.contents| {
      CoversEarlier(d, m, e, r);
    }
  }

  function Found(r: OpenResult): Option<FileId> {
    if r.Opened? then Some(r.id) else None
  }

  /** The file a name is on, if any. */
  function At(d: Dir, name: Name): Option<FileId> {
    if name in d.at then Some(d.at[name]) else None
  }

  lemma NothingToCatchUp(d: Dir, m: Dir, e: Dir, r: Reader)
    requires Evolves(d, m)
    ensures CaughtUpSince(m, e, r) ==> CaughtUpSince(d, e, r)
  {
    hide Evolves, Covers;
    if r.f.Some? {
      CaughtUpEarlier(d, m, e, r);
    }
  }

  lemma AtMostOneWithin(d0: Dir, d1: Dir, d2: Dir, d3: Dir)
    requires Evolves(d0, d1) && Evolves(d1, d2) && Evolves(d2, d3) && AtMostOneFull(d0, d3)
    ensures AtMostOneFull(d1, d2)
  {
  }

  /** What the calls of one open found: the results of opening the current name in
      `d1` and the older one in `d2`, and whether the alias check could stat both. */
  datatype Opening = Opening(d1: Dir, d2: Dir, cur: OpenResult, named: OpenResult, compared: bool)

  /** The two results are what the names were on, where opening did not fail. */
  ghost predicate Opens(o: Opening) {
    && WellFormed(o.d1) && WellFormed(o.d2) && Evolves(o.d1, o.d2)
    && (!o.cur.OpenFailed? ==> Found(o.cur) == At(o.d1, CurrentName))
    && (!o.named.OpenFailed? ==> Found(o.named) == At(o.d2, OlderName))
  }

  /** Both names led to one file: the current one was renamed between the opens. */
  predicate Aliased(o: Opening) {
    o.cur.Opened? && o.named == o.cur
  }

  /** What open leaves of its results: the current file held, the older one read
      first unless it was seen to be the same. */
  ghost predicate StartsFrom(o: Opening, r: Reader) {
    && r.f == Found(o.cur)
    && r.older == (if Aliased(o) && o.compared then None else Found(o.named))
    && (r.older.Some? && r.f.Some? ==>
          && (r.older.value <= r.f.value <==> AtMostOneFull(o.d1, o.d2))
          && (r.older.value < r.f.value ==> r.older.value + 1 == r.f.value))
  }

  lemma StartsFromBoth(o: Opening, previous: OpenResult, r: Reader)
    requires previous == if Aliased(o) && o.compared then Missing else o.named
    requires r.f == Found(o.cur) && r.older == if previous.Opened? then Some(previous.id) else None
    requires r.older.Some? && r.f.Some? ==>
               && (r.older.value <= r.f.value <==> AtMostOneFull(o.d1, o.d2))
               && (r.older.value < r.f.value ==> r.older.value + 1 == r.f.value)
    ensures StartsFrom(o, r)
  {
    hide AtMostOneFull;
  }

  /** The order after an open: the older generation came whole and before the current
      one, none between them, exactly when its scan reached the end, the two are not
      one file, and at most one full rotation fell between the opens. */
  lemma StartsInOrderIff(o: Opening, r: Reader)
    requires StartsFrom(o, r) && r.done == []
    ensures StartsInOrder(r) <==>
            (r.older.Some? ==>
               r.olderWhole && (r.f.Some? ==> AtMostOneFull(o.d1, o.d2) && !(Aliased(o) && !o.compared)))
  {
  }

  lemma OpeningEvolves(d0: Dir, o: Opening, d3: Dir, d4: Dir)
    requires WellFormed(d0) && Opens(o) && WellFormed(d3) && WellFormed(d4)
    requires Evolves(d0, o.d1) && Evolves(o.d2, d3) && Evolves(d3, d4)
    ensures Evolves(o.d2, d4) && Evolves(d0, d4)
  {
    hide Evolves, WellFormed;
    EvolvesTransitive(o.d2, d3, d4);
    EvolvesTransitive(d0, o.d1, o.d2);
    EvolvesTransitive(d0, o.d2, d4);
  }

  lemma OpenedBetween(d0: Dir, o: Opening, e: Dir)
    requires WellFormed(d0) && Opens(o) && WellFormed(e)
    requires Evolves(d0, o.d1) && Evolves(o.d1, e) && Evolves(o.d2, e)
    ensures Evolves(d0, e)
    ensures AtMostOneFull(d0, e) ==> AtMostOneFull(o.d1, o.d2)
  {
    hide Evolves, WellFormed, AtMostOneFull;
    EvolvesTransitive(d0, o.d1, e);
    if AtMostOneFull(d0, e) {
      AtMostOneWithin(d0, o.d1, o.d2, e);
    }
  }

  class Tail {
    const disk: Directory
    var f: Option<FileId>
    var offset: nat
    var gen: nat
    ghost var reader: Reader

    constructor (disk: Directory)
      ensures this.disk == disk && Unopened()
    {
      this.disk := disk;
      f, offset, gen := None, 0, 0;
      reader := Reader(None, 0, 0, None, [], false, [], map[], [], []);
    }

    ghost predicate Unopened()
      reads this
    {
      && f.None? && offset == 0 && gen == 0
      && reader == Reader(None, 0, 0, None, [], false, [], map[], [], [])
    }

    ghost predicate Valid()
      reads this, disk
    {
      && disk.Valid()
      && f == reader.f && offset == reader.offset && gen == reader.gen
      && Mine() <= disk.descriptors
      && Sound(disk.dir, reader)
    }

    /** How many descriptors this reader is answerable for. */
    function Mine(): nat
      reads this
    {
      if f.Some? then 1 else 0
    }

    /** The Daemon is done and has done nothing meanwhile. */
    twostate predicate Quiet()
      reads disk
    {
      disk.script == [] && disk.dir == old(disk.dir)
    }

    /** drain */
    method Drain() returns (out: seq<Bytes>, err: Outcome)
      requires Valid() && f.Some?
      modifies this, disk
      ensures Valid() && Passed(old(disk.dir), old(disk.script), disk.dir, disk.script)
      ensures offset >= old(offset)
      ensures reader == Advanced(old(reader), offset - old(offset), out)
      ensures Held(disk.dir.contents, f, offset) == old(Held(disk.dir.contents, f, offset)) + out
      ensures err.Ok? ==> Covers(old(disk.dir), disk.dir, reader) && disk.faults == old(disk.faults)
      ensures err.Failed? ==> HeldFailed(old(disk.faults), disk.faults, disk.dir, f, offset)
      ensures disk.descriptors == old(disk.descriptors)
      ensures disk.reliable ==> err.Ok?
    {
      hide Complete, Rest, FirstBreak, AllLines, Finished, FailedAt, HeldFailed;
      ghost var d, r := disk.dir, reader;
      var n: nat;
      out, n, err := ScanEvents(disk, f.value, offset, false);
      offset := offset + n;
      reader := Advanced(r, n, out);
      DrainHeld(d, disk.dir, r, reader, n, out);
      if err.Ok? {
        DrainCovers(d, disk.dir, r, reader, n, out);
      } else {
        HeldThrough(d, disk.dir, r, n, out, old(disk.faults), disk.faults);
      }
    }

    /** open: scans the older generation, then the current one, and keeps the
        current one open at the offset through its last newline. `out0` is handed
        out while `gen` is 0 and `out1` while it is 1; `o` is what its calls found. */
    method Open() returns (out0: seq<Bytes>, out1: seq<Bytes>, err: Outcome, ghost o: Opening)
      requires Unopened() && disk.Valid()
      modifies this, disk
      ensures Valid() && Evolves(old(disk.dir), disk.dir)
      ensures gen == 1 && reader.done == []
      ensures reader.olderLines == out0 && reader.lines == out0 + out1
      ensures reader.tags == Times(0, |out0|) + Times(1, |out1|)
      ensures f.Some? ==> out1 == Held(disk.dir.contents, f, offset)
      ensures f.None? ==> out1 == []
      ensures old(disk.faults) <= disk.faults
      ensures OlderRead(old(disk.faults), disk.faults, disk.dir, reader)
      ensures f.Some? ==>
        || CaughtUpSince(old(disk.dir), disk.dir, reader)
        || HeldSince(old(disk.faults), disk.faults, disk.dir, reader)
      ensures disk.faults == old(disk.faults) ==> err.Ok? && o.compared
      ensures disk.descriptors == old(disk.descriptors) + Mine()
      ensures Opens(o) && Evolves(old(disk.dir), o.d1) && Evolves(o.d2, disk.dir)
      ensures StartsFrom(o, reader)
      ensures err.Ok? ==> !o.cur.OpenFailed? && !o.named.OpenFailed?
      ensures err.Ok? ==> (reader.older.Some? ==> reader.olderWhole)
      ensures err.Ok? ==> CaughtUpSince(old(disk.dir), disk.dir, reader)
      ensures disk.reliable ==> err.Ok? && o.compared
      ensures disk.reliable && AtMostOneFull(old(disk.dir), disk.dir) ==> StartsInOrder(reader)
      ensures old(disk.script) == [] ==> o.d1 == o.d2 == old(disk.dir) && Quiet()
    {
      hide Complete, Rest, FirstBreak, AllLines, Finished, Evolves, Sound, Covers, Closed, CaughtUpSince;
      hide AtMostOneFull, WellFormed, Opens, StartsInOrder, Held, Times, StartsFrom, OlderRead, HeldSince;
      var previous, cur;
      ghost var d0, f0 := disk.dir, disk.faults;
      previous, cur, o := OpenBoth();
      ghost var d3, f3 := disk.dir, disk.faults;
      out0, err := ScanOlder(previous);
      ghost var d4, f4, older := disk.dir, disk.faults, reader;
      OpeningEvolves(d0, o, d3, d4);
      var scan: Outcome;
      out1, scan := HoldCurrent(cur, o);
      OpenedBetween(d0, o, disk.dir);
      NothingToCatchUp(d0, d4, disk.dir, reader);
      StartsFromBoth(o, previous, reader);
      if disk.reliable && AtMostOneFull(d0, disk.dir) {
        StartsInOrderIff(o, reader);
      }
      ReadSinceOpen(f0, f3, f4, disk.faults, d4, disk.dir, older, reader);
      err := if scan.Ok? then err else Failed;
    }

    /** The generation-1 half of open. */
    method HoldCurrent(cur: OpenResult, ghost o: Opening)
      returns (out: seq<Bytes>, err: Outcome)
      requires Valid() && f.None?
      requires Of(cur) <= disk.descriptors && cur == o.cur
      requires Opens(o) && Evolves(o.d2, disk.dir)
      requires reader.older.Some? ==> o.named.Opened? && reader.older.value == o.named.id
      modifies this, disk
      ensures Valid() && Evolves(o.d1, disk.dir) && Evolves(o.d2, disk.dir)
      ensures reader == Advanced(old(reader).(f := f, seen := reader.seen, offset := 0), offset, out)
      ensures f.Some? ==> out == Held(disk.dir.contents, f, offset)
      ensures f.None? ==> out == []
      ensures f == Found(cur)
      ensures old(disk.faults) <= disk.faults
      ensures err.Ok? || !cur.Opened? <==> disk.faults == old(disk.faults)
      ensures cur.Missing? ==> err.Ok?
      ensures err.Failed? && cur.Opened? ==> HeldSince(old(disk.faults), disk.faults, disk.dir, reader)
      ensures Evolves(old(disk.dir), disk.dir)
      ensures disk.descriptors == old(disk.descriptors)
      ensures disk.reliable && !cur.OpenFailed? ==> err.Ok?
      ensures err.Ok? ==> !cur.OpenFailed? && CaughtUpSince(old(disk.dir), disk.dir, reader)
      ensures old(disk.script) == [] ==> Quiet()
      ensures reader.older.Some? && f.Some? ==>
                && (reader.older.value <= f.value <==> AtMostOneFull(o.d1, o.d2))
                && (reader.older.value < f.value ==> reader.older.value + 1 == f.value)
    {
      hide Complete, Rest, FirstBreak, AllLines, Finished, HeldFailed, HeldSince;
      out, err := [], Ok;
      EvolvesTransitive(o.d1, o.d2, disk.dir);
      ghost var d := disk.dir;
      match cur {
        case OpenFailed => err := Failed;
        case Missing =>
        case Opened(id) =>
          OpenedNames(o.d1, o.d2, disk.dir, id, o.named, reader);
          out, err := TakeUp(id, o.d1.at);
          if err.Failed? {
            HeldFailedIs(old(disk.faults), disk.faults, disk.dir, reader);
          }
          EvolvesTransitive(o.d1, d, disk.dir);
          EvolvesTransitive(o.d2, d, disk.dir);
      }
    }

    /** The two opens of open and the alias check between their results. */
    method OpenBoth() returns (previous: OpenResult, cur: OpenResult, ghost o: Opening)
      requires disk.Valid()
      modifies disk
      ensures disk.Valid() && Opens(o) && cur == o.cur
      ensures Evolves(old(disk.dir), o.d1) && Evolves(o.d2, disk.dir)
      ensures previous == if Aliased(o) && o.compared then Missing else o.named
      ensures previous.Opened? ==> Closed(disk.dir, previous.id) && OlderName in disk.dir.at
      ensures old(disk.faults) <= disk.faults
      ensures disk.faults == old(disk.faults) <==> !o.cur.OpenFailed? && !o.named.OpenFailed? && o.compared
      ensures disk.descriptors == old(disk.descriptors) + Of(previous) + Of(cur)
      ensures disk.reliable ==> !cur.OpenFailed? && !o.named.OpenFailed? && o.compared
      ensures disk.reliable && previous.Opened? && cur.Opened? ==> previous.id != cur.id
      ensures old(disk.script) == [] ==> o.d1 == o.d2 == old(disk.dir) && Quiet()
    {
      // `named` is looked up after `cur`: were it before, a Rename in between would
      // hide the renamed file from both.
      cur := disk.Open(CurrentName);
      ghost var d1 := disk.dir;
      var named := disk.Open(OlderName);
      ghost var d2 := disk.dir;
      ghost var compared;
      previous, compared := DropRotatedAlias(named, cur);
      o := Opening(d1, d2, cur, named, compared);
      if previous.Opened? {
        assert Closed(d2, previous.id);
      }
    }

    /** Holds a freshly opened current file, from its start, and drains it. */
    method TakeUp(id: FileId, ghost names: map<Name, FileId>) returns (out: seq<Bytes>, err: Outcome)
      requires Valid() && f.None? && disk.descriptors > 0
      requires MayHold(disk.dir, reader, id, names)
      modifies this, disk
      ensures Valid() && Passed(old(disk.dir), old(disk.script), disk.dir, disk.script)
      ensures reader == Advanced(old(reader).(f := Some(id), seen := names), offset, out)
      ensures out == Held(disk.dir.contents, f, offset)
      ensures err.Ok? ==> Covers(old(disk.dir), disk.dir, reader)
      ensures err.Ok? ==> disk.faults == old(disk.faults)
      ensures err.Failed? ==> HeldFailed(old(disk.faults), disk.faults, disk.dir, f, offset)
      ensures disk.descriptors == old(disk.descriptors)
      ensures disk.reliable ==> err.Ok?
    {
      hide Complete, Rest, FirstBreak, AllLines, Finished, HeldFailed;
      TakeFirst(disk.dir, reader, id, names);
      f := Some(id);
      reader := reader.(f := f, seen := names);
      NothingHeld(disk.dir, reader);
      out, err := Drain();
      assert [] + out == out;
    }

    /** The generation-0 half of open. */
    method ScanOlder(previous: OpenResult) returns (out: seq<Bytes>, err: Outcome)
      requires Unopened() && disk.Valid()
      requires previous.Opened? ==>
                 disk.descriptors > 0 && Closed(disk.dir, previous.id) && OlderName in disk.dir.at
      modifies this, disk
      ensures Valid() && Evolves(old(disk.dir), disk.dir)
      ensures f.None? && gen == 1 && reader.done == []
      ensures reader.olderLines == out && reader.lines == out && reader.tags == Times(0, |out|)
      ensures reader.older == if previous.Opened? then Some(previous.id) else None
      ensures err.Ok? || !previous.Opened? <==> disk.faults == old(disk.faults)
      ensures previous.Missing? ==> err.Ok?
      ensures OlderRead(old(disk.faults), disk.faults, disk.dir, reader) && (reader.olderWhole <==> err.Ok?)
      ensures old(disk.faults) <= disk.faults
      ensures disk.descriptors == old(disk.descriptors) - Of(previous)
      ensures err.Ok? ==> !previous.OpenFailed? && (reader.older.Some? ==> reader.olderWhole)
      ensures disk.reliable && !previous.OpenFailed? ==> err.Ok?
      ensures old(disk.script) == [] ==> Quiet()
    {
      hide FailedSince;
      ghost var d := disk.dir;
      out, err := [], Ok;
      gen := 0;
      match previous {
        case OpenFailed => err := Failed;
        case Missing =>
        case Opened(id) =>
          var n: nat;
          out, n, err := ScanEvents(disk, id, 0, true);
          ScannedFromStart(disk.dir.contents[id], n, out);
          if err.Failed? {
            FailedOnce(old(disk.faults), disk.faults, id, disk.dir.contents[id], 0, out);
          }
          assert disk.dir.contents[id][0..] == disk.dir.contents[id];
          disk.Close(id);
          assert Closed(d, id);
      }
      ghost var tags := Times(gen, |out|);
      gen := 1;
      reader := Reader(None, 0, 1, if previous.Opened? then Some(previous.id) else None, out, err.Ok?,
                       [], map[], out, tags);
      OlderScanned(disk.dir, reader);
    }

    /** poll: hands out what was appended since the last call. `before` comes from
        the file held so far, `after` from one taken up during the call; `at` is the
        directory in which the path was opened. */
    method Poll() returns (before: seq<Bytes>, after: seq<Bytes>, err: Outcome, ghost at: Dir)
      requires Valid()
      modifies this, disk
      ensures Valid() && Passed(old(disk.dir), old(disk.script), disk.dir, disk.script)
      ensures Polled(old(reader), reader, before, after)
      ensures reader.f.Some? && reader.f != old(reader).f ==> after == Held(disk.dir.contents, reader.f, offset)
      ensures WellFormed(at) && Evolves(old(disk.dir), at) && Evolves(at, disk.dir)
      ensures old(disk.script) == [] ==> at == old(disk.dir)
      ensures MovesTo(at, old(reader), reader)
      ensures err.Ok? ==> Follows(at, old(reader), reader)
      ensures err.Ok? ==> CaughtUpSince(old(disk.dir), disk.dir, reader)
      ensures err.Ok? && old(disk.script) == [] ==> Follows(disk.dir, old(reader), reader)
      ensures err.Ok? ==> disk.faults == old(disk.faults)
      ensures err.Failed? ==>
        || HeldFailed(old(disk.faults), disk.faults, disk.dir, f, offset)
        || (OtherFailed(old(disk.faults), disk.faults) && reader == old(reader) && before == after == [])
      ensures disk.descriptors == old(disk.descriptors) - old(Mine()) + Mine()
      ensures disk.reliable ==> err.Ok?
    {
      hide Complete, Rest, FirstBreak, AllLines, Finished, HeldFailed;
      before, after, err := [], [], Ok;
      ghost var d0, s0, r := disk.dir, disk.script, reader;
      var found := disk.Open(CurrentName);
      ghost var d1, s1 := disk.dir, disk.script;
      at := d1;
      DaemonKeepsReaderSound(d0, d1, r);
      if found.OpenFailed? || (f.None? && found.Missing?) {
        PolledNothing(r);
        err := if found.OpenFailed? then Failed else Ok;
        return;
      }
      if f.Some? {
        before, after, err := PollHeld(found);
      } else {
        FirstNames(d1, r, found.id);
        after, err := TakeUp(found.id, d1.at);
        PolledFirst(r, reader, after);
      }
      PassedTransitive(d0, s0, d1, s1, disk.dir, disk.script);
      CaughtUpEarlier(d0, d1, disk.dir, reader);
    }

    /** poll with a file held, `found` being what the path names just now. */
    method PollHeld(found: OpenResult) returns (before: seq<Bytes>, after: seq<Bytes>, err: Outcome)
      requires Valid() && f.Some? && !found.OpenFailed? && Of(found) + Mine() <= disk.descriptors
      requires found.Opened? ==> CurrentName in disk.dir.at && disk.dir.at[CurrentName] == found.id
      modifies this, disk
      ensures Valid() && Passed(old(disk.dir), old(disk.script), disk.dir, disk.script)
      ensures f.Some? && Polled(old(reader), reader, before, after)
      ensures f != old(f) ==> after == Held(disk.dir.contents, f, offset)
      ensures f == old(f) || (found.Opened? && f == Some(found.id))
      ensures err.Ok? ==> CaughtUpSince(old(disk.dir), disk.dir, reader)
      ensures err.Ok? ==> f == if found.Opened? then Some(found.id) else old(f)
      ensures err.Ok? ==> disk.faults == old(disk.faults)
      ensures err.Failed? ==>
        || HeldFailed(old(disk.faults), disk.faults, disk.dir, f, offset)
        || (OtherFailed(old(disk.faults), disk.faults) && reader == old(reader) && before == after == [])
      ensures disk.descriptors == old(disk.descriptors) - Of(found) - old(Mine()) + Mine()
      ensures disk.reliable ==> err.Ok?
    {
      hide Complete, Rest, FirstBreak, AllLines, Finished, HeldFailed;
      before, after := [], [];
      ghost var d0, s0 := disk.dir, disk.script;
      var same;
      same, err := CompareHeld(found);
      if err.Failed? {
        return;
      }
      ghost var d1, s1 := disk.dir, disk.script;
      if same || found.Missing? {
        // Between a Rename and the next Create there is nothing to move on to.
        ghost var r := reader;
        before, err := Drain();
        PolledInPlace(r, reader, before);
        PassedTransitive(d0, s0, d1, s1, disk.dir, disk.script);
        CoversEarlier(d0, d1, disk.dir, reader);
      } else {
        before, after, err := PollRotated(found.id, d0);
        PassedTransitive(d0, s0, d1, s1, disk.dir, disk.script);
        CaughtUpEarlier(d0, d1, disk.dir, reader);
      }
    }

    /** poll across a rotation: the held file is finished first; unless that fails,
        the file `id`, opened as current in `d0`, takes its place. */
    method PollRotated(id: FileId, ghost d0: Dir) returns (before: seq<Bytes>, after: seq<Bytes>, err: Outcome)
      requires Valid() && f.Some? && WellFormed(d0) && Evolves(d0, disk.dir) && Sound(d0, reader)
      requires CurrentName in d0.at && d0.at[CurrentName] == id && id != f.value
      requires 1 + Mine() <= disk.descriptors
      modifies this, disk
      ensures Valid() && Passed(old(disk.dir), old(disk.script), disk.dir, disk.script)
      ensures f.Some? && Polled(old(reader), reader, before, after)
      ensures f != old(f) ==> after == Held(disk.dir.contents, f, offset)
      ensures f == old(f) || f == Some(id)
      ensures err.Ok? ==> CaughtUpSince(old(disk.dir), disk.dir, reader)
      ensures err.Ok? ==> f == Some(id)
      ensures err.Ok? ==> disk.faults == old(disk.faults)
      ensures err.Failed? ==> HeldFailed(old(disk.faults), disk.faults, disk.dir, f, offset)
      ensures disk.descriptors == old(disk.descriptors) - 1 - old(Mine()) + Mine()
      ensures disk.reliable ==> err.Ok?
    {
      hide Complete, Rest, FirstBreak, AllLines, Finished, HeldFailed;
      after := [];
      ghost var d1, s1, r := disk.dir, disk.script, reader;
      before, err := FinishHeld(id, d0);
      if err.Failed? {
        disk.Close(id);
        return;
      }
      ghost var d2, s2 := disk.dir, disk.script;
      ghost var crossed := Crossed(r, id, d0.at, before);
      Cross(id, crossed);
      NothingHeld(disk.dir, crossed);
      after, err := Drain();
      assert [] + after == after;
      PolledAcross(r, crossed, reader, before, after);
      PassedTransitive(d1, s1, d2, s2, disk.dir, disk.script);
      CoversEarlier(d1, d2, disk.dir, reader);
    }

    /** The stat calls of poll: whether the file at the path is the held one. Every
        path but "a different file" gives the new descriptor back. */
    method CompareHeld(found: OpenResult) returns (same: bool, err: Outcome)
      requires Valid() && f.Some? && Of(found) + Mine() <= disk.descriptors && Names(disk.dir, found)
      modifies disk
      ensures Valid() && Passed(old(disk.dir), old(disk.script), disk.dir, disk.script)
      ensures err.Ok? ==> (same <==> found == Opened(f.value))
      ensures err.Ok? ==> disk.faults == old(disk.faults)
      ensures err.Failed? ==> OtherFailed(old(disk.faults), disk.faults)
      ensures disk.descriptors ==
              if err.Ok? && !same then old(disk.descriptors) else old(disk.descriptors) - Of(found)
      ensures disk.reliable ==> err.Ok?
    {
      hide Complete, Rest, FirstBreak, AllLines, Finished;
      ghost var d, s := disk.dir, disk.script;
      var held := disk.Stat(f.value);
      var ok := held.Some?;
      same := false;
      ghost var d1, s1 := disk.dir, disk.script;
      if ok && found.Opened? {
        var named := disk.Stat(found.id);
        PassedTransitive(d, s, d1, s1, disk.dir, disk.script);
        ok, same := named.Some?, named == held;
      }
      DaemonKeepsReaderSound(d, disk.dir, reader);
      if found.Opened? && (!ok || same) {
        disk.Close(found.id);
      }
      err := if ok then Ok else Failed;
    }

    /** Drains the rotated-away held file to its end, `id` having been opened as
        current in `d0`; after a failure the file stays held, further on. */
    method FinishHeld(id: FileId, ghost d0: Dir) returns (out: seq<Bytes>, err: Outcome)
      requires Valid() && f.Some? && WellFormed(d0) && Evolves(d0, disk.dir) && Sound(d0, reader)
      requires CurrentName in d0.at && d0.at[CurrentName] == id && id != f.value
      modifies this, disk
      ensures Valid() && Passed(old(disk.dir), old(disk.script), disk.dir, disk.script)
      ensures err.Failed? ==>
                offset >= old(offset) && reader == Advanced(old(reader), offset - old(offset), out)
      ensures err.Ok? ==>
                reader == old(reader) && f.value < id && Sound(disk.dir, Crossed(reader, id, d0.at, out))
      ensures err.Ok? ==> disk.faults == old(disk.faults)
      ensures err.Failed? ==> HeldFailed(old(disk.faults), disk.faults, disk.dir, f, offset)
      ensures disk.descriptors == old(disk.descriptors)
      ensures disk.reliable ==> err.Ok?
    {
      hide Complete, Rest, FirstBreak, AllLines, Finished, FailedAt, HeldFailed;
      ghost var d, r := disk.dir, reader;
      var n: nat;
      RotatedNames(d0, d, r, id);
      out, n, err := ScanEvents(disk, f.value, offset, true);
      if err.Failed? {
        offset := offset + n;
        reader := Advanced(r, n, out);
        DrainHeld(d, disk.dir, r, reader, n, out);
        HeldThrough(d, disk.dir, r, n, out, old(disk.faults), disk.faults);
      } else {
        DaemonKeepsReaderSound(d, disk.dir, r);
        MayCross(d0, d, disk.dir, r, id, out);
      }
    }

    /** Closes the finished held file and holds `id` instead. */
    method Cross(id: FileId, ghost next: Reader)
      requires Valid() && f.Some? && 1 + Mine() <= disk.descriptors
      requires next.f == Some(id) && next.offset == 0 && next.gen == gen + 1
      requires Sound(disk.dir, next)
      modifies this, disk`descriptors
      ensures Valid() && reader == next
      ensures disk.descriptors == old(disk.descriptors) - 1
    {
      hide Complete, Rest, FirstBreak, AllLines, Finished;
      disk.Close(f.value);
      f, offset, gen := Some(id), 0, gen + 1;
      reader := next;
    }

    /** dropRotatedAlias: an older descriptor on the file already open as current
        is closed and dropped, when both can be stat'ed: `compared` is whether none
        of that failed. */
    method DropRotatedAlias(o: OpenResult, cur: OpenResult) returns (kept: OpenResult, ghost compared: bool)
      requires disk.Valid()
      requires Of(o) + Of(cur) <= disk.descriptors && Names(disk.dir, o) && Names(disk.dir, cur)
      modifies disk
      ensures disk.Valid() && Passed(old(disk.dir), old(disk.script), disk.dir, disk.script)
      ensures kept == if cur.Opened? && o == cur && compared then Missing else o
      ensures disk.reliable ==> compared
      ensures old(disk.faults) <= disk.faults && (compared <==> disk.faults == old(disk.faults))
      ensures disk.descriptors == old(disk.descriptors) - Of(o) + Of(kept)
    {
      if !o.Opened? || !cur.Opened? {
        return o, true;
      }
      ghost var d, s := disk.dir, disk.script;
      var older := disk.Stat(o.id);
      ghost var d1, s1 := disk.dir, disk.script;
      var current := disk.Stat(cur.id);
      PassedTransitive(d, s, d1, s1, disk.dir, disk.script);
      if older.Some? && current.Some? && older == current {
        disk.Close(o.id);
        return Missing, true;
      }
      return o, older.Some? && current.Some?;
    }
  }

  lemma PrefixAfter(a: seq<Bytes>, b: seq<Bytes>, c: seq<Bytes>)
    requires b <= c
    ensures a + b <= a + c
  {
  }

  lemma CaughtUp(was: Bytes, c: Bytes, from: nat, to: nat, out: seq<Bytes>)
    requires from <= |was| && was <= c && Rest(was[..from]) == []
    requires Scanned(c, from, to, out) && Complete(was[from..]) <= out
    ensures Complete(was) <= Complete(c[..to])
  {
    LinesAcross(was, from);
    assert c[..from] == was[..from];
    ScanExtendsHeld(c, from, to, out);
    PrefixAfter(Complete(was[..from]), Complete(was[from..]), out);
  }
}
