/** Server-Sent Events: the frame printer (dashboard/live.go) and the client's
    parser, section 9.2.6 of the WHATWG HTML standard. */
module EventStream {
  import opened Lines
  import opened LogFraming

  const COLON: Byte := 58
  const SPACE: Byte := 32
  const EVENT: Bytes := [101, 118, 101, 110, 116]
  const DATA: Bytes := [100, 97, 116, 97]
  const LOG: Bytes := [108, 111, 103]
  const MESSAGE: Bytes := [109, 101, 115, 115, 97, 103, 101]

  predicate Breaks(b: Byte) {
    b == CR || b == LF
  }

  /** Every CRLF and every other CR becomes one LF. */
  function Normalised(s: Bytes): (r: Bytes)
    ensures CR !in r
    decreases |s|
  {
    if s == [] then []
    else if s[0] == CR then [LF] + Normalised(if |s| > 1 && s[1] == LF then s[2..] else s[1..])
    else [s[0]] + Normalised(s[1..])
  }

  /** The pieces of `s` between its LFs; one more than there are LFs. */
  function Pieces(s: Bytes): (r: seq<Bytes>)
    ensures |r| > 0
    decreases |s|
  {
    var n := FirstBreak(s);
    if n == |s| then [s] else [s[..n]] + Pieces(s[n + 1..])
  }

  function DataLines(lines: seq<Bytes>): Bytes {
    if lines == [] then []
    else DataLines(lines[..|lines| - 1]) + (DATA + [COLON, SPACE] + lines[|lines| - 1] + [LF])
  }

  /** One frame: the event's name, a data line for each line of data, a blank line. */
  function Frame(event: Bytes, data: Bytes): Bytes {
    EVENT + [COLON, SPACE] + event + [LF] + DataLines(Pieces(Normalised(data))) + [LF]
  }

  method WriteFrame(event: Bytes, data: Bytes) returns (out: Bytes)
    ensures out == Frame(event, data)
  {
    var head := EVENT + [COLON, SPACE] + event + [LF];
    out := head;
    var lines := Pieces(Normalised(data));
    for i := 0 to |lines|
      invariant out == head + DataLines(lines[..i])
    {
      assert lines[..i + 1][..i] == lines[..i];
      out := out + (DATA + [COLON, SPACE] + lines[i] + [LF]);
    }
    assert lines[..|lines|] == lines;
    out := out + [LF];
  }

  datatype Message = Message(kind: Bytes, data: Bytes)

  /** The parser's buffers, and the events dispatched so far. */
  datatype Parser = Parser(data: Bytes, kind: Bytes, events: seq<Message>)

  /** Where the line at the start of `s` ends, or `|s|` when it is unterminated. */
  function LineEnd(s: Bytes): (n: nat)
    ensures n <= |s|
    ensures n < |s| ==> Breaks(s[n])
    ensures forall k :: 0 <= k < n ==> !Breaks(s[k])
  {
    if s == [] || Breaks(s[0]) then 0 else 1 + LineEnd(s[1..])
  }

  /** What follows the line break at `n`; a CRLF is one break. */
  function AfterBreak(s: Bytes, n: nat): (r: Bytes)
    requires n < |s| && Breaks(s[n])
    ensures |r| < |s|
  {
    if s[n] == CR && n + 1 < |s| && s[n + 1] == LF then s[n + 2..] else s[n + 1..]
  }

  function ColonAt(line: Bytes): (n: nat)
    ensures n <= |line|
    ensures n < |line| ==> line[n] == COLON
    ensures forall k :: 0 <= k < n ==> line[k] != COLON
  {
    if line == [] || line[0] == COLON then 0 else 1 + ColonAt(line[1..])
  }

  function Dispatch(p: Parser): Parser {
    if p.data == [] then Parser([], [], p.events)
    else
      var data := if p.data[|p.data| - 1] == LF then p.data[..|p.data| - 1] else p.data;
      Parser([], [], p.events + [Message(if p.kind == [] then MESSAGE else p.kind, data)])
  }

  function Field(p: Parser, name: Bytes, value: Bytes): Parser {
    if name == EVENT then p.(kind := value)
    else if name == DATA then p.(data := p.data + value + [LF])
    else p
  }

  /** Processing one line; the id and retry fields do not affect what is
      dispatched. */
  function Process(p: Parser, line: Bytes): Parser {
    if line == [] then Dispatch(p)
    else
      var n := ColonAt(line);
      if n == 0 then p
      else if n == |line| then Field(p, line, [])
      else
        var value := line[n + 1..];
        Field(p, line[..n], if value != [] && value[0] == SPACE then value[1..] else value)
  }

  /** A whole stream; an unterminated last line is not processed. */
  function Parse(p: Parser, s: Bytes): Parser
    decreases |s|
  {
    var n := LineEnd(s);
    if n == |s| then p else Parse(Process(p, s[..n]), AfterBreak(s, n))
  }

  ghost predicate NoBreaks(s: Bytes) {
    forall i :: 0 <= i < |s| ==> !Breaks(s[i])
  }

  lemma LineEndIs(s: Bytes, n: nat)
    requires n < |s| && Breaks(s[n]) && NoBreaks(s[..n])
    ensures LineEnd(s) == n
  {
    assert forall k :: 0 <= k < n ==> !Breaks(s[..n][k]);
  }

  lemma ParseLine(p: Parser, line: Bytes, rest: Bytes)
    requires NoBreaks(line)
    ensures Parse(p, line + [LF] + rest) == Parse(Process(p, line), rest)
  {
    var s := line + [LF] + rest;
    assert s[..|line|] == line && s[|line| + 1..] == rest;
    LineEndIs(s, |line|);
  }

  lemma ColonIs(line: Bytes, n: nat)
    requires n < |line| && line[n] == COLON
    requires forall k :: 0 <= k < n ==> line[k] != COLON
    ensures ColonAt(line) == n
  {
  }

  /** A printed field line is read back as that field. */
  lemma FieldLine(p: Parser, name: Bytes, value: Bytes)
    requires name == EVENT || name == DATA
    ensures Process(p, name + [COLON, SPACE] + value) == Field(p, name, value)
  {
    var line := name + [COLON, SPACE] + value;
    assert forall k :: 0 <= k < |name| ==> line[k] == name[k];
    ColonIs(line, |name|);
    assert line[..|name|] == name;
    assert line[|name| + 1..] == [SPACE] + value;
    assert ([SPACE] + value)[1..] == value;
  }

  function Terminated(lines: seq<Bytes>): Bytes {
    if lines == [] then [] else Terminated(lines[..|lines| - 1]) + lines[|lines| - 1] + [LF]
  }

  lemma {:induction false} ParseDataLines(p: Parser, lines: seq<Bytes>, rest: Bytes)
    requires forall i :: 0 <= i < |lines| ==> NoBreaks(lines[i])
    ensures Parse(p, DataLines(lines) + rest) == Parse(p.(data := p.data + Terminated(lines)), rest)
  {
    hide Parse, Process, Field, NoBreaks, DataLines, Terminated;
    if lines == [] {
      NoDataLines(p.data, rest);
    } else {
      var before, line := lines[..|lines| - 1], lines[|lines| - 1];
      var field := DATA + [COLON, SPACE] + line;
      LastDataLine(p.data, lines, rest);
      ParseDataLines(p, before, field + [LF] + rest);
      var q := p.(data := p.data + Terminated(before));
      FieldHasNoBreaks(DATA, line);
      ParseLine(q, field, rest);
      FieldLine(q, DATA, line);
      DataField(q, line);
    }
  }

  lemma NoDataLines(data: Bytes, rest: Bytes)
    ensures DataLines([]) + rest == rest && data + Terminated([]) == data
  {
  }

  lemma {:induction false} LastDataLine(data: Bytes, lines: seq<Bytes>, rest: Bytes)
    requires lines != []
    ensures var before, line := lines[..|lines| - 1], lines[|lines| - 1];
      && DataLines(lines) + rest == DataLines(before) + (DATA + [COLON, SPACE] + line + [LF] + rest)
      && data + Terminated(lines) == data + Terminated(before) + line + [LF]
  {
  }

  lemma FieldHasNoBreaks(name: Bytes, value: Bytes)
    requires name == EVENT || name == DATA
    ensures NoBreaks(value) ==> NoBreaks(name + [COLON, SPACE] + value)
  {
  }

  lemma DataField(p: Parser, value: Bytes)
    ensures Field(p, DATA, value) == p.(data := p.data + value + [LF])
    ensures Field(p, EVENT, value) == p.(kind := value)
  {
    assert |DATA| != |EVENT|;
  }

  lemma {:induction false} TerminatedPrepend(line: Bytes, lines: seq<Bytes>)
    ensures Terminated([line] + lines) == line + [LF] + Terminated(lines)
  {
    var all := [line] + lines;
    if lines == [] {
      assert all[..0] == [] && all[0] == line;
      assert Terminated(all) == [] + line + [LF];
    } else {
      assert all[..|all| - 1] == [line] + lines[..|lines| - 1];
      TerminatedPrepend(line, lines[..|lines| - 1]);
      assert all[|all| - 1] == lines[|lines| - 1];
    }
  }

  /** Joining the pieces with newlines restores the text. */
  lemma {:induction false} PiecesRejoin(s: Bytes)
    ensures Terminated(Pieces(s)) == s + [LF]
    decreases |s|
  {
    hide Terminated;
    var n := FirstBreak(s);
    if n == |s| {
      assert [s] == [s] + [];
      TerminatedPrepend(s, []);
      NothingTerminated();
    } else {
      var line, rest := s[..n], s[n + 1..];
      PiecesRejoin(rest);
      TerminatedPrepend(line, Pieces(rest));
      assert s == line + [LF] + rest;
      assert line + [LF] + (rest + [LF]) == s + [LF];
    }
  }

  lemma NothingTerminated()
    ensures Terminated([]) == []
  {
  }

  lemma {:induction false} PiecesHaveNoBreaks(s: Bytes)
    requires CR !in s
    ensures forall i :: 0 <= i < |Pieces(s)| ==> NoBreaks(Pieces(s)[i])
    decreases |s|
  {
    var n := FirstBreak(s);
    assert NoBreaks(s[..n]);
    if n == |s| {
      assert s[..n] == s;
    } else {
      PiecesHaveNoBreaks(s[n + 1..]);
    }
  }

  /** A frame comes out as one event with its name and the data, line breaks
      normalised; empty data included. */
  lemma FrameRoundTrip(events: seq<Message>, event: Bytes, data: Bytes, rest: Bytes)
    requires event != [] && NoBreaks(event)
    ensures Parse(Parser([], [], events), Frame(event, data) + rest)
         == Parse(Parser([], [], events + [Message(event, Normalised(data))]), rest)
  {
    hide Parse, Process, Field, NoBreaks, Normalised, Pieces, DataLines, Terminated;
    var p, text := Parser([], [], events), Normalised(data);
    var lines, head := Pieces(text), EVENT + [COLON, SPACE] + event;
    var tail := DataLines(lines) + ([LF] + rest);
    assert Frame(event, data) + rest == head + [LF] + tail;
    FieldHasNoBreaks(EVENT, event);
    ParseLine(p, head, tail);
    FieldLine(p, EVENT, event);
    DataField(p, event);
    PiecesHaveNoBreaks(text);
    var q := p.(kind := event);
    ParseDataLines(q, lines, [LF] + rest);
    PiecesRejoin(text);
    assert [] + (text + [LF]) == text + [LF];
    BlankLine(q.(data := text + [LF]), rest);
  }

  lemma BlankLine(p: Parser, rest: Bytes)
    requires p.kind != [] && p.data != [] && p.data[|p.data| - 1] == LF
    ensures Parse(p, [LF] + rest) == Parse(Parser([], [], p.events + [Message(p.kind, p.data[..|p.data| - 1])]), rest)
  {
    assert [] + [LF] + rest == [LF] + rest;
    ParseLine(p, [], rest);
  }

  lemma ParseNothing(p: Parser)
    ensures Parse(p, []) == p
  {
  }

  /** A stream of frames. */
  function Stream(frames: seq<Message>): Bytes {
    if frames == [] then [] else Frame(frames[0].kind, frames[0].data) + Stream(frames[1..])
  }

  function Decoded(frames: seq<Message>): (r: seq<Message>)
    ensures |r| == |frames|
  {
    if frames == [] then []
    else [Message(frames[0].kind, Normalised(frames[0].data))] + Decoded(frames[1..])
  }

  /** Whatever sequence of frames is printed, exactly that sequence of events is
      dispatched. */
  lemma {:induction false} StreamRoundTrip(events: seq<Message>, frames: seq<Message>)
    requires forall i :: 0 <= i < |frames| ==> frames[i].kind != [] && NoBreaks(frames[i].kind)
    ensures Parse(Parser([], [], events), Stream(frames)) == Parser([], [], events + Decoded(frames))
    decreases |frames|
  {
    hide Frame, Normalised, Parse;
    if frames == [] {
      ParseNothing(Parser([], [], events));
      assert events + [] == events;
    } else {
      FrameRoundTrip(events, frames[0].kind, frames[0].data, Stream(frames[1..]));
      var e := Message(frames[0].kind, Normalised(frames[0].data));
      StreamRoundTrip(events + [e], frames[1..]);
      assert events + [e] + Decoded(frames[1..]) == events + Decoded(frames);
    }
  }

  predicate SplitsCRLF(a: Bytes, b: Bytes) {
    a != [] && b != [] && a[|a| - 1] == CR && b[0] == LF
  }

  lemma {:induction false} NormalisedAcross(a: Bytes, b: Bytes)
    ensures !SplitsCRLF(a, b) ==> Normalised(a + b) == Normalised(a) + Normalised(b)
    ensures SplitsCRLF(a, b) ==> |Normalised(a + b)| == |Normalised(a)| + |Normalised(b)| - 1
    decreases |a|
  {
    hide Normalised;
    NothingNormalised();
    if a == [] {
      assert a + b == b;
    } else {
      NormalisedHead(a);
      NormalisedHead(a + b);
      var n := Taken(a);
      if Taken(a + b) == n {
        assert (a + b)[n..] == a[n..] + b;
        NormalisedAcross(a[n..], b);
      } else {
        assert a == [CR] && a[1..] == [] && (a + b)[2..] == b[1..];
        NormalisedHead(b);
      }
    }
  }

  /** How many bytes the first byte of the normalised text stands for. */
  function Taken(s: Bytes): (n: nat)
    requires s != []
    ensures 1 <= n <= |s|
  {
    if s[0] == CR && |s| > 1 && s[1] == LF then 2 else 1
  }

  lemma NormalisedHead(s: Bytes)
    requires s != []
    ensures Normalised(s) == [if s[0] == CR then LF else s[0]] + Normalised(s[Taken(s)..])
  {
  }

  /** Normalising two chunks apart is harmless exactly when they do not split a
      CRLF. */
  lemma NormalisedApartIff(a: Bytes, b: Bytes)
    ensures Normalised(a + b) == Normalised(a) + Normalised(b) <==> !SplitsCRLF(a, b)
  {
    NormalisedAcross(a, b);
  }

  function Joined(payloads: seq<Bytes>): Bytes {
    if payloads == [] then []
    else Joined(payloads[..|payloads| - 1]) + Normalised(payloads[|payloads| - 1])
  }

  /** What the log frames of a drain decode to, joined, is the file with its line
      breaks normalised, up to the bytes still held back. */
  lemma {:induction false} LogFramesDecodeToTheFile(whole: Bytes, frames: seq<Bytes>)
    requires Framed(whole, frames)
    requires forall i :: 0 <= i < |frames| ==> frames[i] != []
    ensures Joined(frames) == Normalised(Flatten(frames))
  {
    hide Normalised, FrameEnd;
    if frames == [] {
      NothingNormalised();
    } else {
      var before, f := frames[..|frames| - 1], frames[|frames| - 1];
      assert frames == before + [f];
      FlattenLast(before, f);
      assert forall k :: 0 <= k <= |before| ==> before[..k] == frames[..k];
      LogFramesDecodeToTheFile(whole, before);
      CutKeepsCRLF(whole, Flatten(before), f);
      NormalisedAcross(Flatten(before), f);
    }
  }

  function LogMessages(frames: seq<Bytes>): seq<Message> {
    seq(|frames|, i requires 0 <= i < |frames| => Message(LOG, frames[i]))
  }

  lemma {:induction false} DecodedAt(frames: seq<Message>, i: nat)
    requires i < |frames|
    ensures Decoded(frames)[i] == Message(frames[i].kind, Normalised(frames[i].data))
    decreases |frames|
  {
    if i > 0 {
      DecodedAt(frames[1..], i - 1);
    }
  }

  /** A log tab's parser hands on one log event a frame; their data joined is the
      file, normalised, up to what is held back. */
  lemma LogTabReadsTheFile(whole: Bytes, frames: seq<Bytes>)
    requires Framed(whole, frames)
    requires forall i :: 0 <= i < |frames| ==> frames[i] != []
    ensures var got := Parse(Parser([], [], []), Stream(LogMessages(frames))).events;
      && |got| == |frames|
      && (forall i :: 0 <= i < |frames| ==> got[i] == Message(LOG, Normalised(frames[i])))
      && Joined(frames) == Normalised(Flatten(frames))
  {
    hide Parse, Normalised, Joined, Flatten, Stream, Framed, Decoded;
    var messages := LogMessages(frames);
    StreamRoundTrip([], messages);
    assert [] + Decoded(messages) == Decoded(messages);
    forall i | 0 <= i < |frames| ensures Decoded(messages)[i] == Message(LOG, Normalised(frames[i])) {
      DecodedAt(messages, i);
    }
    LogFramesDecodeToTheFile(whole, frames);
  }

  lemma NothingNormalised()
    ensures Normalised([]) == []
  {
  }

  lemma CutKeepsCRLF(whole: Bytes, sent: Bytes, f: Bytes)
    requires sent + f <= whole && FrameEnd(whole, |sent|)
    ensures !SplitsCRLF(sent, f)
  {
    if sent != [] && f != [] {
      assert whole[|sent| - 1] == (sent + f)[|sent| - 1];
      assert whole[|sent|] == (sent + f)[|sent|];
    }
  }

  /** The lines of a text under the event stream's own rule. */
  function AnyLines(s: Bytes): seq<Bytes>
    decreases |s|
  {
    var n := LineEnd(s);
    if n == |s| then [s] else [s[..n]] + AnyLines(AfterBreak(s, n))
  }

  /** The data lines of a frame are the data's lines, whichever breaks it uses. */
  lemma {:induction false} NormalisedKeepsLines(s: Bytes)
    ensures Pieces(Normalised(s)) == AnyLines(s)
    decreases |s|
  {
    var n := LineEnd(s);
    if n == |s| {
      NormalisedPlain(s);
    } else {
      var rest, text := AfterBreak(s, n), s[..n];
      NormalisedKeepsLines(rest);
      NormalisedAtBreak(s, n);
      var t := text + [LF] + Normalised(rest);
      FirstBreakIs(t, n);
      assert t[..n] == text && t[n + 1..] == Normalised(rest);
    }
  }

  lemma {:induction false} NormalisedPlain(s: Bytes)
    requires LineEnd(s) == |s|
    ensures Normalised(s) == s
    ensures FirstBreak(s) == |s|
  {
    if s != [] {
      NormalisedPlain(s[1..]);
    }
  }

  lemma {:induction false} NormalisedAtBreak(s: Bytes, n: nat)
    requires n == LineEnd(s) < |s|
    ensures Normalised(s) == s[..n] + [LF] + Normalised(AfterBreak(s, n))
  {
    if n > 0 {
      NormalisedAtBreak(s[1..], n - 1);
      assert s[..n] == [s[0]] + s[1..][..n - 1];
      assert AfterBreak(s, n) == AfterBreak(s[1..], n - 1);
    } else {
      assert s[..0] == [];
    }
  }
}
