/** Reading a child's report pipe line by line through one fixed buffer
    (cmd/launcher/daemon/runner.go), when a read can be abandoned at a deadline and
    resumed later, perhaps by another image. */
module ReportReader {
  import opened Lines
  import opened Options

  const MAX_LINE := 4096

  /** Why a pipe stopped yielding bytes. */
  datatype End = Eof | Deadline | Failed

  /** The pipe during one Wait: everything that arrives before the read ends. */
  class Pipe {
    var pending: Bytes
    const end: End

    constructor (bytes: Bytes, end: End)
      ensures pending == bytes && this.end == end
    {
      pending, this.end := bytes, end;
    }

    /** One read of up to `max` bytes. */
    method Read(max: nat) returns (chunk: Bytes, err: Option<End>)
      requires max > 0
      modifies this
      ensures chunk + pending == old(pending) && |chunk| <= max
      ensures err.None? <==> chunk != []
      ensures err.Some? ==> err == Some(end) && pending == []
    {
      if pending == [] {
        return [], Some(end);
      }
      var n: nat :| 0 < n <= max && n <= |pending|;
      chunk, err := pending[..n], None;
      pending := pending[n..];
    }
  }

  datatype SliceEnd = Newline | Full | Ended(end: End)

  /** bufio.Reader, as far as ReadSlice goes. */
  class BufReader {
    const pipe: Pipe
    var buf: Bytes
    var err: Option<End>

    constructor (pipe: Pipe)
      ensures this.pipe == pipe && Valid() && Unread() == pipe.pending
    {
      this.pipe, buf, err := pipe, [], None;
    }

    ghost predicate Valid()
      reads this, pipe
    {
      && |buf| <= MAX_LINE
      && (err.Some? ==> |buf| < MAX_LINE && err == Some(pipe.end) && pipe.pending == [])
    }

    ghost function Unread(): Bytes
      reads this, pipe
    {
      buf + pipe.pending
    }

    /** However the bytes arrive: a line if its newline is among the next MAX_LINE
        bytes, else a full buffer if there are that many, else what is left. */
    method ReadSlice() returns (line: Bytes, r: SliceEnd)
      requires Valid()
      modifies this, pipe
      ensures Valid() && line + Unread() == old(Unread())
      ensures var u, n := old(Unread()), FirstBreak(old(Unread()));
        if n < |u| && n < MAX_LINE then r == Newline && |line| == n + 1
        else if |u| >= MAX_LINE then r == Full && |line| == MAX_LINE
        else r == Ended(pipe.end) && Unread() == []
    {
      hide FirstBreak;
      ghost var u := Unread();
      while true
        invariant Valid() && Unread() == u
        decreases |pipe.pending|, err.None?
      {
        var n := FirstBreak(buf);
        if n < |buf| {
          FirstBreakIs(u, n);
          line, r := buf[..n + 1], Newline;
          buf := buf[n + 1..];
          assert line + Unread() == u;
          return;
        }
        NotYet(buf, pipe.pending);
        if err.Some? {
          line, r := buf, Ended(err.value);
          buf, err := [], None;
          assert line + Unread() == u;
          return;
        }
        if |buf| >= MAX_LINE {
          line, r := buf, Full;
          buf := [];
          assert line + Unread() == u;
          return;
        }
        ghost var before := pipe.pending;
        var chunk, e := pipe.Read(MAX_LINE - |buf|);
        assert (buf + chunk) + pipe.pending == buf + before;
        buf, err := buf + chunk, e;
      }
    }
  }

  lemma NotYet(a: Bytes, b: Bytes)
    requires FirstBreak(a) == |a|
    ensures FirstBreak(a + b) == |a| + FirstBreak(b)
  {
    FirstBreakIs(a + b, |a| + FirstBreak(b));
  }

  /** What a line fragment adds to the lines parsed, after the `partial` an
      earlier read left: nothing when the fragment alone is over the limit. */
  function Text(partial: Bytes, fragment: Bytes): seq<Bytes> {
    if |fragment| >= MAX_LINE || partial + fragment == [] then [] else [partial + fragment]
  }

  /** The lines handed to the parser, and what the next read resumes from. */
  datatype Outcome = Outcome(parsed: seq<Bytes>, partial: Bytes, discarding: bool)

  function Prepend(lines: seq<Bytes>, o: Outcome): Outcome {
    o.(parsed := lines + o.parsed)
  }

  /** An unterminated fragment at the end of a read. */
  function AtEnd(partial: Bytes, u: Bytes, end: End): Outcome {
    if |u| >= MAX_LINE then Outcome([], [], true)
    else if end.Deadline? then Outcome([], partial + u, false)
    else Outcome(Text(partial, u), [], false)
  }

  /** One read of the bytes `u`, starting at a line or after its first part. */
  function ReadFrom(partial: Bytes, u: Bytes, end: End): Outcome
    decreases |u|
  {
    var n := FirstBreak(u);
    if n == |u| then AtEnd(partial, u, end)
    else Prepend(Text(partial, u[..n]), ReadFrom([], u[n + 1..], end))
  }

  /** One read, inside a line being discarded or not. */
  function Resumed(partial: Bytes, discarding: bool, u: Bytes, end: End): Outcome {
    if !discarding then ReadFrom(partial, u, end)
    else
      var n := FirstBreak(u);
      if n == |u| then Outcome([], [], true) else ReadFrom([], u[n + 1..], end)
  }

  /** Some line of `u` does not fit the buffer. */
  predicate OverLong(u: Bytes)
    decreases |u|
  {
    var n := FirstBreak(u);
    n >= MAX_LINE || (n < |u| && OverLong(u[n + 1..]))
  }

  /** The same after the rest of a line being discarded. */
  predicate OverLongIn(discarding: bool, u: Bytes) {
    if !discarding then OverLong(u) else FirstBreak(u) < |u| && OverLong(u[FirstBreak(u) + 1..])
  }

  lemma NextOverLong(u: Bytes, rest: Bytes)
    requires FirstBreak(u) < |u| && FirstBreak(u) < MAX_LINE && rest == u[FirstBreak(u) + 1..]
    ensures OverLong(u) <==> OverLong(rest)
  {
  }

  lemma SomeOverLong(u: Bytes)
    requires FirstBreak(u) >= MAX_LINE
    ensures OverLong(u)
  {
  }

  lemma NoneOverLong(u: Bytes)
    requires FirstBreak(u) == |u| < MAX_LINE
    ensures !OverLong(u)
  {
  }

  /** What daemon.ParseRecord makes of a line. */
  datatype Parsed<R> = Record(r: R) | Ignored | Malformed | KindMismatch

  datatype Warning = BadLine | Mismatch

  class ReportState<R> {
    var partial: Bytes
    var discarding: bool
    var reportedBad: bool
    var reportedMismatch: bool
    var records: seq<R> // what onRecord was called with

    ghost var parsed: seq<Bytes>
    ghost var warnings: seq<Warning>

    /** A fresh pipe, or one another image handed over with the part of a line it
        had read. */
    constructor (partial: Bytes, discarding: bool)
      requires FirstBreak(partial) == |partial| && (discarding ==> partial == [])
      ensures Valid() && this.partial == partial && this.discarding == discarding
      ensures parsed == [] && warnings == []
    {
      this.partial, this.discarding, reportedBad, reportedMismatch := partial, discarding, false, false;
      records, parsed, warnings := [], [], [];
    }

    /** Each kind of warning goes out once at most. */
    ghost predicate Valid()
      reads this
    {
      && FirstBreak(partial) == |partial|
      && (discarding ==> partial == [])
      && (forall i, j :: 0 <= i < j < |warnings| ==> warnings[i] != warnings[j])
      && (reportedBad <==> BadLine in warnings)
      && (reportedMismatch <==> Mismatch in warnings)
    }

    /** The warnings out after reading `lines`, an over-long one besides if `long`:
        those out before, and one for each kind of fault found. */
    static ghost predicate WarnedOf(parse: Bytes -> Parsed<R>, lines: seq<Bytes>, long: bool,
                                    before: seq<Warning>, after: seq<Warning>) {
      && before <= after
      && (BadLine in after <==> BadLine in before || long || exists i :: 0 <= i < |lines| && parse(lines[i]).Malformed?)
      && (Mismatch in after <==> Mismatch in before || exists i :: 0 <= i < |lines| && parse(lines[i]).KindMismatch?)
    }

    static lemma WarnedOfAppend(parse: Bytes -> Parsed<R>, a: seq<Bytes>, b: seq<Bytes>, long1: bool, long2: bool,
                                before: seq<Warning>, mid: seq<Warning>, after: seq<Warning>)
      requires WarnedOf(parse, a, long1, before, mid) && WarnedOf(parse, b, long2, mid, after)
      ensures WarnedOf(parse, a + b, long1 || long2, before, after)
    {
      var c := a + b;
      assert forall i :: 0 <= i < |a| ==> c[i] == a[i];
      assert forall i :: 0 <= i < |b| ==> c[|a| + i] == b[i];
    }

    static lemma WarnedOfNothing(parse: Bytes -> Parsed<R>, warnings: seq<Warning>)
      ensures WarnedOf(parse, [], false, warnings, warnings)
    {
    }

    method ReportOnce(w: Warning)
      requires Valid()
      modifies this`reportedBad, this`reportedMismatch, this`warnings
      ensures Valid() && w in warnings
      ensures warnings == old(warnings) + if w in old(warnings) then [] else [w]
    {
      var reported := if w.Mismatch? then reportedMismatch else reportedBad;
      if !reported {
        if w.Mismatch? {
          reportedMismatch := true;
        } else {
          reportedBad := true;
        }
        warnings := warnings + [w];
      }
    }

    /** Parse one line, unless it is empty. */
    method Take(line: Bytes, parse: Bytes -> Parsed<R>)
      requires Valid()
      modifies this
      ensures Valid() && parsed == old(parsed) + (if line == [] then [] else [line])
      ensures partial == old(partial) && discarding == old(discarding)
      ensures WarnedOf(parse, if line == [] then [] else [line], false, old(warnings), warnings)
      ensures records == old(records) + Records(parse, if line == [] then [] else [line])
    {
      if line == [] {
        return;
      }
      parsed := parsed + [line];
      match parse(line) {
        case Record(rec) => records := records + [rec];
        case Ignored =>
        case Malformed => ReportOnce(BadLine);
        case KindMismatch => ReportOnce(Mismatch);
      }
    }

    /** Drop the rest of a line being discarded; `found` when its newline came. */
    method Discard(reader: BufReader) returns (found: bool)
      requires reader.Valid() && Valid() && discarding
      modifies this`discarding, reader, reader.pipe
      ensures reader.Valid() && Valid() && found == !discarding
      ensures found ==> |reader.Unread()| < |old(reader.Unread())|
      ensures Resumed([], true, old(reader.Unread()), reader.pipe.end) ==
        if found then Resumed([], false, reader.Unread(), reader.pipe.end) else Outcome([], [], true)
      ensures OverLongIn(true, old(reader.Unread())) <==> found && OverLongIn(false, reader.Unread())
    {
      hide FirstBreak, Resumed, OverLongIn;
      ghost var end := reader.pipe.end;
      ghost var whole, long := Resumed([], true, reader.Unread(), end), OverLongIn(true, reader.Unread());
      while true
        invariant reader.Valid() && Valid() && discarding
        invariant |reader.Unread()| <= |old(reader.Unread())|
        invariant Resumed([], true, reader.Unread(), end) == whole && OverLongIn(true, reader.Unread()) == long
        decreases |reader.Unread()|
      {
        ghost var u := reader.Unread();
        var line, r := reader.ReadSlice();
        DiscardOn(u, line, reader.Unread(), end);
        match r {
          case Newline =>
            discarding := false;
            return true;
          case Full =>
          case Ended(_) =>
            return false;
        }
      }
    }

    /** A full buffer without a newline: warn, and drop the line. */
    method BeginDiscard(parse: Bytes -> Parsed<R>)
      requires Valid() && !discarding
      modifies this
      ensures Valid() && partial == [] && discarding
      ensures parsed == old(parsed) && records == old(records) && WarnedOf(parse, [], true, old(warnings), warnings)
    {
      ReportOnce(BadLine);
      partial, discarding := [], true;
    }

    /** One line, or what there is of it; `end` when the read ended there. */
    method NextLine(reader: BufReader, parse: Bytes -> Parsed<R>)
      returns (end: Option<End>, ghost text: seq<Bytes>)
      requires Valid() && reader.Valid() && !discarding
      modifies this, reader, reader.pipe
      ensures Valid() && reader.Valid()
      ensures parsed == old(parsed) + text && records == old(records) + Records(parse, text)
      ensures WarnedOf(parse, text, discarding, old(warnings), warnings)
      ensures OverLongIn(false, old(reader.Unread())) <==>
                discarding || (end.None? && OverLongIn(discarding, reader.Unread()))
      ensures var o := Resumed(old(partial), false, old(reader.Unread()), reader.pipe.end);
        if end.Some? then end == Some(reader.pipe.end) && o == Prepend(text, Outcome([], partial, discarding))
        else o == Prepend(text, Resumed(partial, discarding, reader.Unread(), reader.pipe.end))
             && |reader.Unread()| < |old(reader.Unread())|
    {
      hide Records, Text, FirstBreak, ReadFrom, WarnedOf, TrimNewline, OverLong;
      WarnedOfNothing(parse, warnings);
      ghost var p, u, n := partial, reader.Unread(), FirstBreak(reader.Unread());
      text := [];
      var line, r := reader.ReadSlice();
      if r.Full? {
        assert reader.Unread() == u[MAX_LINE..];
        OverLongLine(p, u, reader.pipe.end);
        SomeOverLong(u);
        NothingYet(Resumed([], true, u[MAX_LINE..], reader.pipe.end), parse);
        BeginDiscard(parse);
        return None, text;
      }
      if r.Newline? {
        LineRead(p, u, reader.pipe.end, line, reader.Unread());
        NextOverLong(u, reader.Unread());
      } else {
        Cut(p, u, reader.pipe.end, line);
        NoneOverLong(u);
      }
      line := partial + line;
      partial := [];
      if r.Ended? && r.end.Deadline? {
        NothingYet(Outcome([], line, false), parse);
        partial := line;
        return Some(r.end), text;
      }
      text := Text(p, u[..n]);
      Take(TrimNewline(line), parse);
      end := if r.Ended? then Some(r.end) else None;
    }

    /** One call of readReports: what is parsed and what is left to resume from is
        what the whole of this read's bytes gives, however they arrived. */
    method ReadReports(pipe: Pipe, parse: Bytes -> Parsed<R>) returns (end: End)
      requires Valid()
      modifies this, pipe
      ensures Valid() && end == pipe.end
      ensures var o := Resumed(old(partial), old(discarding), old(pipe.pending), pipe.end);
        && parsed == old(parsed) + o.parsed
        && partial == o.partial && discarding == o.discarding
        && records == old(records) + Records(parse, o.parsed)
        && WarnedOf(parse, o.parsed, OverLongIn(old(discarding), old(pipe.pending)), old(warnings), warnings)
    {
      hide *;
      ghost var whole := Resumed(partial, discarding, pipe.pending, pipe.end);
      ghost var someLong := OverLongIn(discarding, pipe.pending);
      ghost var long := false;
      var reader := new BufReader(pipe);
      ghost var out: seq<Bytes> := [];
      NothingYet(whole, parse);
      WarnedOfNothing(parse, warnings);
      while true
        invariant Valid() && reader.Valid() && fresh(reader) && reader.pipe == pipe
        invariant WarnedOf(parse, out, long, old(warnings), warnings)
        invariant someLong <==> long || OverLongIn(discarding, reader.Unread())
        invariant parsed == old(parsed) + out && records == old(records) + Records(parse, out)
        invariant Prepend(out, Resumed(partial, discarding, reader.Unread(), pipe.end)) == whole
        decreases |reader.Unread()|, discarding
      {
        DiscardsNothingElse();
        if discarding {
          var found := Discard(reader);
          if !found {
            Prepended(out, [], Outcome([], [], true));
            return pipe.end;
          }
          continue;
        }
        ghost var before := Resumed(partial, discarding, reader.Unread(), pipe.end);
        ghost var warned := warnings;
        var e, text := NextLine(reader, parse);
        WarnedOfAppend(parse, out, text, long, discarding, old(warnings), warned, warnings);
        long := long || discarding;
        RecordsAppend(parse, out, text);
        Prepended(out, text, if e.Some? then Outcome([], partial, discarding)
                             else Resumed(partial, discarding, reader.Unread(), pipe.end));
        out := out + text;
        if e.Some? {
          return e.value;
        }
      }
    }

    lemma DiscardsNothingElse()
      requires Valid()
      ensures discarding ==> partial == []
    {
    }
  }

  lemma Prepended(a: seq<Bytes>, b: seq<Bytes>, o: Outcome)
    ensures Prepend(a, Prepend(b, o)) == Prepend(a + b, o)
    ensures o.parsed == [] ==> Prepend(a + b, o) == Outcome(a + b, o.partial, o.discarding)
    ensures o.parsed == [] ==> Prepend(a, o) == Outcome(a, o.partial, o.discarding)
  {
    assert o.parsed == [] ==> a + b + o.parsed == a + b && a + o.parsed == a;
  }

  function TrimNewline(s: Bytes): Bytes {
    if s != [] && s[|s| - 1] == LF then s[..|s| - 1] else s
  }

  function Records<R>(parse: Bytes -> Parsed<R>, lines: seq<Bytes>): seq<R> {
    if lines == [] then []
    else
      var r := parse(lines[|lines| - 1]);
      Records(parse, lines[..|lines| - 1]) + if r.Record? then [r.r] else []
  }

  lemma FirstBreakBeyond(u: Bytes, k: nat)
    requires k <= FirstBreak(u)
    ensures FirstBreak(u) == k + FirstBreak(u[k..])
  {
    assert u[..k] + u[k..] == u;
    FirstBreakIs(u[..k], k);
    NotYet(u[..k], u[k..]);
  }

  lemma NothingYet<R>(o: Outcome, parse: Bytes -> Parsed<R>)
    ensures Prepend([], o) == o
    ensures Records(parse, []) == []
  {
  }

  lemma {:induction false} RecordsAppend<R>(parse: Bytes -> Parsed<R>, a: seq<Bytes>, b: seq<Bytes>)
    ensures Records(parse, a + b) == Records(parse, a) + Records(parse, b)
  {
    if b == [] {
      assert a + b == a;
    } else {
      assert (a + b)[..|a + b| - 1] == a + b[..|b| - 1];
      RecordsAppend(parse, a, b[..|b| - 1]);
    }
  }

  lemma LineRead(p: Bytes, u: Bytes, end: End, line: Bytes, rest: Bytes)
    requires FirstBreak(u) < |u| && |line| == FirstBreak(u) + 1 && line + rest == u
    ensures var n := FirstBreak(u);
      && (n < MAX_LINE ==> Text(p, u[..n]) == if TrimNewline(p + line) == [] then [] else [TrimNewline(p + line)])
      && ReadFrom(p, u, end) == Prepend(Text(p, u[..n]), Resumed([], false, rest, end))
  {
    assert u[FirstBreak(u) + 1..] == rest;
    assert TrimNewline(p + line) == p + u[..FirstBreak(u)];
  }

  lemma Cut(p: Bytes, u: Bytes, end: End, line: Bytes)
    requires FirstBreak(u) == |u| < MAX_LINE && line + [] == u && FirstBreak(p) == |p|
    ensures FirstBreak(p + line) == |p + line|
    ensures Text(p, u[..|u|]) == if TrimNewline(p + line) == [] then [] else [TrimNewline(p + line)]
    ensures ReadFrom(p, u, end) ==
      if end.Deadline? then Outcome([], p + line, false) else Outcome(Text(p, u[..|u|]), [], false)
  {
    NotYet(p, u);
    assert line == u == u[..|u|];
  }

  /** What is left of a discarded line, a slice at a time. */
  lemma DiscardOn(u: Bytes, line: Bytes, rest: Bytes, end: End)
    requires line + rest == u
    ensures |line| == FirstBreak(u) + 1 ==> Resumed([], true, u, end) == Resumed([], false, rest, end)
    ensures |line| <= FirstBreak(u) ==> Resumed([], true, u, end) == Resumed([], true, rest, end)
    ensures FirstBreak(u) == |u| ==> Resumed([], true, u, end) == Outcome([], [], true)
    ensures |line| == FirstBreak(u) + 1 ==> OverLongIn(true, u) == OverLongIn(false, rest)
    ensures |line| <= FirstBreak(u) ==> OverLongIn(true, u) == OverLongIn(true, rest)
    ensures FirstBreak(u) == |u| ==> !OverLongIn(true, u)
  {
    hide ReadFrom, FirstBreak, OverLong;
    var n := FirstBreak(u);
    assert rest == u[|line|..];
    if |line| <= n {
      FirstBreakBeyond(u, |line|);
      if n < |u| {
        assert rest[n - |line| + 1..] == u[n + 1..];
      }
    }
  }

  lemma OverLongLine(p: Bytes, u: Bytes, end: End)
    requires FirstBreak(u) >= MAX_LINE
    ensures ReadFrom(p, u, end) == Resumed([], true, u[MAX_LINE..], end)
  {
    hide FirstBreak, ReadFrom;
    FirstBreakBeyond(u, MAX_LINE);
    if FirstBreak(u) < |u| {
      SliceAfter(u, MAX_LINE, FirstBreak(u) + 1);
      OverLongEnds(p, u, end);
      DiscardsTo(u[MAX_LINE..], end);
    } else {
      OverLongOpen(p, u, end);
    }
  }

  lemma OverLongEnds(p: Bytes, u: Bytes, end: End)
    requires MAX_LINE <= FirstBreak(u) < |u|
    ensures ReadFrom(p, u, end) == ReadFrom([], u[FirstBreak(u) + 1..], end)
  {
    PrependNothing(ReadFrom([], u[FirstBreak(u) + 1..], end));
  }

  lemma OverLongOpen(p: Bytes, u: Bytes, end: End)
    requires MAX_LINE <= FirstBreak(u) == |u|
    ensures ReadFrom(p, u, end) == Outcome([], [], true)
  {
  }

  lemma SliceAfter(u: Bytes, k: nat, n: nat)
    requires k <= n <= |u|
    ensures u[k..][n - k..] == u[n..]
  {
  }

  /** A line with its newline within MAX_LINE bytes, or a shorter last one. */
  predicate Fits(line: Bytes) {
    FirstBreak(line) < MAX_LINE
  }

  /** The texts of the lines worth parsing: those that fit and are not empty. */
  function Texts(lines: seq<Bytes>): seq<Bytes> {
    if lines == [] then []
    else
      (if Fits(lines[0]) && TrimNewline(lines[0]) != [] then [TrimNewline(lines[0])] else [])
      + Texts(lines[1..])
  }

  lemma TextsPrepend(line: Bytes, lines: seq<Bytes>)
    ensures Texts([line] + lines) == Texts([line]) + Texts(lines)
  {
    assert ([line] + lines)[1..] == lines && [line][1..] == [];
  }

  lemma {:induction false} TextOfLine(u: Bytes, n: nat)
    requires n == FirstBreak(u) < |u|
    ensures Text([], u[..n]) == Texts([u[..n + 1]])
  {
    var line := u[..n + 1];
    FirstBreakIs(line, n);
    hide FirstBreak;
    assert [] + u[..n] == TrimNewline(line) == u[..n];
    assert [line][1..] == [];
  }

  lemma {:induction false} AllLinesStep(u: Bytes)
    requires FirstBreak(u) < |u|
    ensures AllLines(u) == [u[..FirstBreak(u) + 1]] + AllLines(u[FirstBreak(u) + 1..])
  {
  }

  lemma {:induction false} FirstLineRead(u: Bytes, end: End)
    requires FirstBreak(u) < |u|
    ensures var n := FirstBreak(u);
      ReadFrom([], u, end).parsed == Texts([u[..n + 1]]) + ReadFrom([], u[n + 1..], end).parsed
  {
    hide Texts, Text, FirstBreak;
    TextOfLine(u, FirstBreak(u));
  }

  lemma {:induction false} LastLineRead(u: Bytes, end: End)
    requires FirstBreak(u) == |u| && !end.Deadline?
    ensures ReadFrom([], u, end).parsed == Texts(AllLines(u))
  {
    assert [] + u == u == TrimNewline(u);
    assert AllLines(u) == if u == [] then [] else [u];
  }

  /** Read without interruption, a stream yields exactly its lines that fit, an
      unterminated last one included, in order. */
  lemma {:induction false} UninterruptedRead(u: Bytes, end: End)
    requires !end.Deadline?
    ensures ReadFrom([], u, end).parsed == Texts(AllLines(u))
    decreases |u|
  {
    hide Texts, AllLines, ReadFrom;
    var n := FirstBreak(u);
    if n == |u| {
      LastLineRead(u, end);
    } else {
      UninterruptedRead(u[n + 1..], end);
      FirstLineRead(u, end);
      AllLinesStep(u);
      TextsPrepend(u[..n + 1], AllLines(u[n + 1..]));
    }
  }

  /** A read of `v` after a read of `u` that a deadline ended. */
  function Then(o: Outcome, v: Bytes, end: End): Outcome {
    Prepend(o.parsed, Resumed(o.partial, o.discarding, v, end))
  }

  /** The line the cut falls in is over the limit although neither part of it is. */
  predicate OverLongAcross(u: Bytes, v: Bytes) {
    var a, b := |Rest(u)|, FirstBreak(v);
    a < MAX_LINE && b < MAX_LINE && a + b >= MAX_LINE
  }

  lemma PrependCancels(lines: seq<Bytes>, o: Outcome, o': Outcome)
    ensures Prepend(lines, o) == Prepend(lines, o') <==> o == o'
  {
    if lines + o.parsed == lines + o'.parsed {
      assert (lines + o.parsed)[|lines|..] == o.parsed;
      assert (lines + o'.parsed)[|lines|..] == o'.parsed;
    }
  }

  lemma PrependNothing(o: Outcome)
    ensures Prepend([], o) == o
  {
  }

  /** Reads one after another, all but the last ended by a deadline; between two
      of them the pipe may change hands, with the state the first left. */
  function Reads(partial: Bytes, discarding: bool, us: seq<Bytes>, end: End): Outcome
    requires us != []
    decreases |us|
  {
    if |us| == 1 then Resumed(partial, discarding, us[0], end)
    else
      var o := Resumed(partial, discarding, us[0], Deadline);
      Prepend(o.parsed, Reads(o.partial, o.discarding, us[1..], end))
  }

  /** A line that the reads `us` go on with, `seen` bytes of it read before, or one
      they cut later on, is over the limit although every part of it a single read got
      is within it (`small`, of the parts before). */
  predicate CutsOverLong(seen: nat, small: bool, us: seq<Bytes>)
    requires us != []
    decreases |us|
  {
    var u, n := us[0], FirstBreak(us[0]);
    var here := small && n < MAX_LINE && seen + n >= MAX_LINE;
    if |us| == 1 then here
    else if n < |u| then here || CutsOverLong(|Rest(u)|, |Rest(u)| < MAX_LINE, us[1..])
    else CutsOverLong(seen + n, small && n < MAX_LINE, us[1..])
  }

  /** One line and what follows it. */
  lemma {:induction false} LineThen(p: Bytes, line: Bytes, y: Bytes, end: End)
    requires FirstBreak(line) == |line|
    ensures ReadFrom(p, line + ([LF] + y), end) == Prepend(Text(p, line), ReadFrom([], y, end))
  {
    var u := line + ([LF] + y);
    FirstBreakIs(u, |line|);
    assert u[..|line|] == line && u[|line| + 1..] == y;
  }

  lemma {:induction false} SplitLine(u: Bytes)
    requires FirstBreak(u) < |u|
    ensures var n := FirstBreak(u);
      FirstBreak(u[..n]) == n && u == u[..n] + ([LF] + u[n + 1..]) && Rest(u) == Rest(u[n + 1..])
  {
    FirstBreakIs(u[..FirstBreak(u)], FirstBreak(u));
  }

  lemma Regrouped(w: Bytes, line: Bytes, y: Bytes, v: Bytes)
    ensures w + ((line + ([LF] + y)) + v) == (w + line) + ([LF] + (y + v))
    ensures (line + ([LF] + y)) + v == line + ([LF] + (y + v))
  {
  }

  lemma ReadCutLine(u: Bytes, v: Bytes, end: End)
    requires FirstBreak(u) == |u|
    ensures Rest(u) == u
    ensures ReadFrom([], u, Deadline) == if |u| < MAX_LINE then Outcome([], u, false) else Outcome([], [], true)
  {
    assert [] + u == u;
  }

  /** A read up to a deadline: its whole lines, then its last fragment. */
  lemma {:induction false} ReadToRest(u: Bytes, v: Bytes, end: End)
    ensures var o := ReadFrom([], u, Deadline);
      && ReadFrom([], u + v, end) == Prepend(o.parsed, ReadFrom([], Rest(u) + v, end))
      && o.partial == (if |Rest(u)| < MAX_LINE then Rest(u) else []) && (o.discarding <==> |Rest(u)| >= MAX_LINE)
    decreases |u|
  {
    var n := FirstBreak(u);
    if n == |u| {
      ReadCutLine(u, v, end);
      PrependNothing(ReadFrom([], u + v, end));
    } else {
      SplitLine(u);
      hide Text, FirstBreak, ReadFrom, Rest;
      var line, y := u[..n], u[n + 1..];
      ReadToRest(y, v, end);
      Regrouped([], line, y, v);
      LineThen([], line, y, Deadline);
      LineThen([], line, y + v, end);
      Prepended(Text([], line), ReadFrom([], y, Deadline).parsed, ReadFrom([], Rest(u) + v, end));
    }
  }

  /** The state a reader is in with `w` read of a line so far. */
  function Going(w: Bytes, small: bool, us: seq<Bytes>, end: End): Outcome
    requires us != []
  {
    Reads(if small then w else [], !small, us, end)
  }

  /** The text a line gives when its last part `v` comes after `w`, and in one piece. */
  lemma PartOrWhole(w: Bytes, small: bool, v: Bytes)
    requires !small ==> |w| >= MAX_LINE
    ensures var part, whole := if small then Text(w, v) else [], Text([], w + v);
      && (part == whole <==> !(small && |v| < MAX_LINE && |w| + |v| >= MAX_LINE))
      && (part != whole ==> |part| > |whole|)
  {
    assert [] + (w + v) == w + v;
  }

  lemma Lengthened(a: seq<Bytes>, b: seq<Bytes>, more: seq<Bytes>, o: Outcome, o': Outcome)
    requires |o.parsed| >= |o'.parsed| && (a != b ==> |a| > |b|)
    ensures |Prepend(a + more, o).parsed| >= |Prepend(b + more, o').parsed|
    ensures Prepend(a + more, o) == Prepend(b + more, o') <==> a == b && o == o'
  {
    if a == b {
      PrependCancels(a + more, o, o');
    }
  }

  /** The last read, if the line at hand ends in it. */
  lemma {:induction false} LastLineEnds(w: Bytes, small: bool, u: Bytes, end: End)
    requires FirstBreak(w) == |w| && (!small ==> |w| >= MAX_LINE) && FirstBreak(u) < |u|
    ensures var n := FirstBreak(u);
            var part, o := if small then Text(w, u[..n]) else [], ReadFrom([], u[n + 1..], end);
      && Going(w, small, [u], end) == Prepend(part + [], o)
      && ReadFrom([], w + u, end) == Prepend(Text([], w + u[..n]) + [], o)
  {
    hide Text, FirstBreak, ReadFrom;
    var n := FirstBreak(u);
    var line, y := u[..n], u[n + 1..];
    SplitLine(u);
    NotYet(w, line);
    Regrouped(w, line, y, []);
    assert u + [] == u && y + [] == y;
    LineThen(w, line, y, end);
    LineThen([], w + line, y, end);
    DiscardsTo(u, end);
    PrependNothing(ReadFrom([], y, end));
    NothingMore(if small then Text(w, line) else [], Text([], w + line));
  }

  /** And if it does not. */
  lemma {:induction false} LastLineOpen(w: Bytes, small: bool, u: Bytes, end: End)
    requires FirstBreak(w) == |w| && (!small ==> |w| >= MAX_LINE) && FirstBreak(u) == |u|
    ensures Going(w, small, [u], end) == if small then AtEnd(w, u, end) else Outcome([], [], true)
    ensures ReadFrom([], w + u, end) == AtEnd([], w + u, end)
  {
    hide FirstBreak, AtEnd;
    NotYet(w, u);
  }

  lemma AtEndPartOrWhole(w: Bytes, small: bool, u: Bytes, end: End)
    requires !small ==> |w| >= MAX_LINE
    ensures var part := if small then AtEnd(w, u, end) else Outcome([], [], true);
      && |part.parsed| >= |AtEnd([], w + u, end).parsed|
      && (part == AtEnd([], w + u, end) <==> !(small && |u| < MAX_LINE && |w| + |u| >= MAX_LINE))
  {
    assert [] + (w + u) == w + u;
  }

  lemma NothingMore(a: seq<Bytes>, b: seq<Bytes>)
    ensures a + [] == a && b + [] == b
  {
  }

  /** The line at hand ends in the first of several reads. */
  lemma {:induction false} LineEndsIn(w: Bytes, small: bool, u: Bytes, rest: seq<Bytes>, end: End)
    requires rest != [] && FirstBreak(w) == |w| && (!small ==> |w| >= MAX_LINE) && FirstBreak(u) < |u|
    ensures var part := if small then Text(w, u[..FirstBreak(u)]) else [];
            var more := ReadFrom([], u[FirstBreak(u) + 1..], Deadline).parsed;
      && Going(w, small, [u] + rest, end) == Prepend(part + more, Going(Rest(u), |Rest(u)| < MAX_LINE, rest, end))
      && ReadFrom([], w + (u + Flatten(rest)), end) ==
         Prepend(Text([], w + u[..FirstBreak(u)]) + more, ReadFrom([], Rest(u) + Flatten(rest), end))
  {
    hide Text, FirstBreak, ReadFrom, Rest, Flatten, Reads;
    var n, v := FirstBreak(u), Flatten(rest);
    var line, y := u[..n], u[n + 1..];
    SplitLine(u);
    NotYet(w, line);
    ReadToRest(y, v, end);
    var o := ReadFrom([], y, Deadline);
    GoesThrough(w, small, u, rest, end);
    LineThen(w, line, y, Deadline);
    DiscardsTo(u, Deadline);
    PrependNothing(o);
    Prepended(if small then Text(w, line) else [], o.parsed, Going(Rest(u), |Rest(u)| < MAX_LINE, rest, end));
    Regrouped(w, line, y, v);
    LineThen([], w + line, y + v, end);
    Prepended(Text([], w + line), o.parsed, ReadFrom([], Rest(u) + v, end));
  }

  lemma {:induction false} GoesThrough(w: Bytes, small: bool, u: Bytes, rest: seq<Bytes>, end: End)
    requires rest != []
    ensures var o := Resumed(if small then w else [], !small, u, Deadline);
      Going(w, small, [u] + rest, end) == Prepend(o.parsed, Reads(o.partial, o.discarding, rest, end))
  {
    hide Resumed;
    assert ([u] + rest)[1..] == rest;
  }

  lemma {:induction false} DiscardsTo(u: Bytes, end: End)
    requires FirstBreak(u) < |u|
    ensures Resumed([], true, u, end) == ReadFrom([], u[FirstBreak(u) + 1..], end)
  {
  }

  /** It goes on through the whole of the first read. */
  lemma {:induction false} LineGoesOn(w: Bytes, small: bool, u: Bytes, rest: seq<Bytes>, end: End)
    requires rest != [] && FirstBreak(w) == |w| && (!small ==> |w| >= MAX_LINE) && FirstBreak(u) == |u|
    ensures Going(w, small, [u] + rest, end) == Going(w + u, small && |u| < MAX_LINE, rest, end)
  {
    hide FirstBreak;
    assert ([u] + rest)[1..] == rest;
    PrependNothing(Going(w + u, small && |u| < MAX_LINE, rest, end));
  }

  lemma {:induction false} LastReadIff(w: Bytes, small: bool, u: Bytes, end: End)
    requires FirstBreak(w) == |w| && (!small ==> |w| >= MAX_LINE)
    ensures |Going(w, small, [u], end).parsed| >= |ReadFrom([], w + u, end).parsed|
    ensures Going(w, small, [u], end) == ReadFrom([], w + u, end) <==> !CutsOverLong(|w|, small, [u])
  {
    hide FirstBreak, Text, ReadFrom, Going, AtEnd;
    var n := FirstBreak(u);
    if n < |u| {
      LastLineEnds(w, small, u, end);
      PartOrWhole(w, small, u[..n]);
      var o := ReadFrom([], u[n + 1..], end);
      Lengthened(if small then Text(w, u[..n]) else [], Text([], w + u[..n]), [], o, o);
    } else {
      LastLineOpen(w, small, u, end);
      AtEndPartOrWhole(w, small, u, end);
    }
  }

  lemma {:induction false} LineEndsIff(w: Bytes, small: bool, u: Bytes, rest: seq<Bytes>, end: End)
    requires rest != [] && FirstBreak(w) == |w| && (!small ==> |w| >= MAX_LINE) && FirstBreak(u) < |u|
    ensures var next, one := Going(Rest(u), |Rest(u)| < MAX_LINE, rest, end), ReadFrom([], Rest(u) + Flatten(rest), end);
            var part, whole := Going(w, small, [u] + rest, end), ReadFrom([], w + (u + Flatten(rest)), end);
            var here := small && FirstBreak(u) < MAX_LINE && |w| + FirstBreak(u) >= MAX_LINE;
      |next.parsed| >= |one.parsed| ==>
        |part.parsed| >= |whole.parsed| && (part == whole <==> !here && next == one)
  {
    hide FirstBreak, Text, ReadFrom, Rest, Going, Flatten;
    var n := FirstBreak(u);
    var part, whole := if small then Text(w, u[..n]) else [], Text([], w + u[..n]);
    var next, one := Going(Rest(u), |Rest(u)| < MAX_LINE, rest, end), ReadFrom([], Rest(u) + Flatten(rest), end);
    LineEndsIn(w, small, u, rest, end);
    PartOrWhole(w, small, u[..n]);
    if |next.parsed| >= |one.parsed| {
      Lengthened(part, whole, ReadFrom([], u[n + 1..], Deadline).parsed, next, one);
    }
  }

  lemma FlattenOne(u: Bytes)
    ensures Flatten([u]) == u
  {
    assert [u][1..] == [] && u + [] == u;
  }

  /** Reads under way, `w` read of the line at hand: what they parse and leave is that
      of one read exactly when no over-long line comes in small parts; and they never
      parse less. */
  lemma {:induction false} GoingOnIff(w: Bytes, small: bool, us: seq<Bytes>, end: End)
    requires us != [] && FirstBreak(w) == |w| && (!small ==> |w| >= MAX_LINE)
    ensures |Going(w, small, us, end).parsed| >= |ReadFrom([], w + Flatten(us), end).parsed|
    ensures Going(w, small, us, end) == ReadFrom([], w + Flatten(us), end) <==> !CutsOverLong(|w|, small, us)
    decreases |us|
  {
    hide FirstBreak, ReadFrom, Rest, Going;
    var u, rest := us[0], us[1..];
    assert us == [u] + rest;
    if rest == [] {
      assert us == [u];
      FlattenOne(u);
      LastReadIff(w, small, u, end);
    } else if FirstBreak(u) < |u| {
      RestHasNoBreak(u);
      GoingOnIff(Rest(u), |Rest(u)| < MAX_LINE, rest, end);
      LineEndsIff(w, small, u, rest, end);
    } else {
      NotYet(w, u);
      GoingOnIff(w + u, small && |u| < MAX_LINE, rest, end);
      LineGoesOn(w, small, u, rest, end);
      Associate(w, u, Flatten(rest));
    }
  }

  /** Exactly when a schedule of abandoned, resumed and handed-over reads parses and
      leaves what one read of it all would: when it cuts no over-long line into parts
      that are all within the limit. */
  lemma {:induction false} ResumedReadsIff(us: seq<Bytes>, end: End)
    requires us != []
    ensures Reads([], false, us, end) == ReadFrom([], Flatten(us), end) <==> !CutsOverLong(0, true, us)
  {
    hide CutsOverLong, ReadFrom;
    EmptyLeft(Flatten(us));
    GoingOnIff([], true, us, end);
  }

  /** For a single deadline: an interrupted read parses what an uninterrupted one
      would, and leaves the same state, exactly when it did not cut an over-long line
      into parts that are not. */
  lemma {:induction false} InterruptedReadIff(u: Bytes, v: Bytes, end: End)
    ensures Then(ReadFrom([], u, Deadline), v, end) == ReadFrom([], u + v, end) <==> !OverLongAcross(u, v)
  {
    hide FirstBreak, ReadFrom;
    ResumedReadsIff([u] + [v], end);
    assert ([u] + [v])[1..] == [v];
    FlattenOne(v);
    if FirstBreak(u) == |u| {
      RestOfCut(u);
    }
  }

  lemma RestOfCut(u: Bytes)
    requires FirstBreak(u) == |u|
    ensures Rest(u) == u
  {
  }

  /** Every line fits: from anywhere, a newline comes within MAX_LINE bytes, or
      fewer bytes than that are left. */
  ghost predicate LinesFit(s: Bytes) {
    forall i :: 0 <= i <= |s| ==> FirstBreak(s[i..]) < MAX_LINE
  }

  /** Whatever the schedule of abandoned and resumed reads, when every line fits
      the lines parsed and the state left are those of one read of it all. */
  lemma {:induction false} ResumedReadsEqualOne(us: seq<Bytes>, end: End)
    requires us != [] && LinesFit(Flatten(us))
    ensures Reads([], false, us, end) == ReadFrom([], Flatten(us), end)
    decreases |us|
  {
    hide FirstBreak, ReadFrom, Resumed, LinesFit, OverLongAcross;
    if |us| == 1 {
      assert us[1..] == [] && us[0] + [] == us[0];
      NotDiscarding([], us[0], end);
    } else {
      var u, v, rest := us[0], us[1], us[2..];
      var joined := [u + v] + rest;
      assert us[1..][1..] == rest && joined[1..] == rest;
      assert Flatten(us) == u + (v + Flatten(rest)) == (u + v) + Flatten(rest) == Flatten(joined);
      FitAcross(u, v, Flatten(rest));
      var o := ReadFrom([], u, Deadline);
      InterruptedReadIff(u, v, if |us| == 2 then end else Deadline);
      NotDiscarding([], u, Deadline);
      NotDiscarding([], u + v, if |us| == 2 then end else Deadline);
      if |us| > 2 {
        var mid := Resumed(o.partial, o.discarding, v, Deadline);
        Prepended(o.parsed, mid.parsed, Reads(mid.partial, mid.discarding, rest, end));
      }
      ResumedReadsEqualOne(joined, end);
    }
  }

  lemma NotDiscarding(p: Bytes, u: Bytes, end: End)
    ensures Resumed(p, false, u, end) == ReadFrom(p, u, end)
  {
  }

  lemma {:induction false} FitAcross(u: Bytes, v: Bytes, w: Bytes)
    requires LinesFit((u + v) + w)
    ensures !OverLongAcross(u, v)
  {
    hide FirstBreak, Rest;
    var r, s, head := Rest(u), (u + v) + w, Flatten(Complete(u));
    LinesAreTheBytes(u);
    RestHasNoBreak(u);
    Regroup(head, r, v, w);
    assert FirstBreak(s[|head|..]) < MAX_LINE;
    RunAcross(r, v, w);
  }

  lemma Regroup(head: Bytes, r: Bytes, v: Bytes, w: Bytes)
    ensures (head + r + v + w)[|head|..] == r + v + w
  {
  }

  lemma {:induction false} RunAcross(r: Bytes, v: Bytes, w: Bytes)
    requires FirstBreak(r) == |r|
    ensures FirstBreak(r + v + w) >= |r| + FirstBreak(v)
  {
  }

  /** Once a line is being discarded, nothing up to its newline is ever parsed: the
      reads that follow give what they would with those bytes gone. */
  lemma {:induction false} DiscardedIsNeverParsed(us: seq<Bytes>, end: End)
    requires us != []
    ensures var skipped := SkipLine(us);
      Reads([], true, us, end) ==
        if skipped == [] then Outcome([], [], true) else Reads([], false, skipped, end)
    decreases |us|
  {
    hide FirstBreak, ReadFrom;
    var n := FirstBreak(us[0]);
    if n == |us[0]| && |us| > 1 {
      DiscardedIsNeverParsed(us[1..], end);
      PrependNothing(Reads([], true, us[1..], end));
    } else if n < |us[0]| {
      assert ([us[0][n + 1..]] + us[1..])[1..] == us[1..];
    }
  }

  /** The reads without what is left of the line at their start. */
  function SkipLine(us: seq<Bytes>): seq<Bytes> {
    if us == [] then []
    else
      var n := FirstBreak(us[0]);
      if n == |us[0]| then SkipLine(us[1..]) else [us[0][n + 1..]] + us[1..]
  }
}
