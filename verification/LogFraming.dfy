/** Streaming a growing log file as frames (dashboard/log.go): the drain loop over
    one fixed buffer that carries an undecided character or a trailing CR from one
    read to the next. */
module LogFraming {
  import opened Lines
  import opened Options
  import opened EventsDirectory
  import opened Utf8

  const LOG_FRAME_MAX := 0x10000

  /** `p` may still turn out to be one character. */
  predicate Undecided(p: Bytes) {
    p != [] && !FullRune(p)
  }

  /** The last `n` bytes may still turn out to be one character. */
  predicate OpenAtEnd(b: Bytes, n: nat) {
    n <= |b| && Undecided(b[|b| - n..])
  }

  /** How many bytes at the end of `b` are an undecided character. */
  function OpenLength(b: Bytes): (n: nat)
    ensures n <= |b| && n < UTF_MAX
    ensures n > 0 ==> OpenAtEnd(b, n)
    ensures n == 0 ==> forall m :: 1 <= m < UTF_MAX ==> !OpenAtEnd(b, m)
  {
    if OpenAtEnd(b, 1) then 1 else if OpenAtEnd(b, 2) then 2 else if OpenAtEnd(b, 3) then 3 else 0
  }

  /** How many bytes of the buffer a cut keeps back: an undecided character at its
      end, and a CR before that. */
  function KeptBack(b: Bytes): (n: nat)
    ensures n <= |b|
  {
    var n := OpenLength(b);
    if n < |b| && b[|b| - n - 1] == CR then n + 1 else n
  }

  /** The frame a buffer makes, and what stays in it. */
  function Frame(b: Bytes): Bytes {
    b[..|b| - KeptBack(b)]
  }

  function Remainder(b: Bytes): Bytes {
    b[|b| - KeptBack(b)..]
  }

  /** An undecided character is a leading byte and continuation bytes, too few. */
  lemma UndecidedIs(p: Bytes)
    requires Undecided(p)
    ensures RuneStart(p[0]) && |p| < UTF_MAX
    ensures forall i :: 1 <= i < |p| ==> Continuation(p[i])
  {
  }

  /** So at most one stretch at the end is one. */
  lemma OpenOnce(b: Bytes, m: nat, n: nat)
    requires OpenAtEnd(b, m) && OpenAtEnd(b, n)
    ensures m == n
  {
    UndecidedIs(b[|b| - m..]);
    UndecidedIs(b[|b| - n..]);
  }

  /** Behind a decided character nothing is open. */
  lemma NothingOpen(b: Bytes, i: int)
    requires -1 <= i < |b| && (i >= 0 ==> RuneStart(b[i]) && FullRune(b[i..]))
    requires forall j :: i < j < |b| && |b| - 3 <= j ==> Continuation(b[j])
    ensures OpenLength(b) == 0
  {
    var n := OpenLength(b);
    if n > 0 {
      UndecidedIs(b[|b| - n..]);
    }
  }

  /** However the bytes go on, a character ends at `c`. */
  ghost predicate EndsCharacter(b: Bytes, c: nat) {
    c <= |b| && forall t: Bytes :: Boundary(b + t, c)
  }

  /** How much of `b` ends on a character boundary: all of it, but for an
      undecided character at the end. */
  method CompleteRunes(b: Bytes) returns (n: nat)
    ensures n <= |b| && EndsCharacter(b, n)
    ensures n < |b| ==> Undecided(b[n..]) && |b| - n < UTF_MAX
    ensures n == |b| - OpenLength(b)
  {
    var i := |b| - 1;
    while i >= 0 && i >= |b| - UTF_MAX
      invariant -1 <= i < |b|
      invariant i >= |b| - UTF_MAX - 1
      invariant forall j :: i < j < |b| ==> Continuation(b[j])
    {
      if RuneStart(b[i]) {
        if FullRune(b[i..]) {
          AllOfIt(b, i);
          NothingOpen(b, i);
          return |b|;
        }
        LeadBegins(b, i);
        OpenOnce(b, |b| - i, OpenLength(b));
        return i;
      }
      i := i - 1;
    }
    NoLead(b);
    NothingOpen(b, -1);
    return |b|;
  }

  lemma LeadBegins(b: Bytes, i: nat)
    requires i < |b| && RuneStart(b[i])
    ensures EndsCharacter(b, i)
  {
    forall t: Bytes ensures Boundary(b + t, i) {
      RuneStartIsBoundary(b + t, i);
    }
  }

  lemma NoLead(b: Bytes)
    requires forall j :: 0 <= j < |b| && |b| - 3 <= j ==> Continuation(b[j])
    ensures EndsCharacter(b, |b|)
  {
    forall t: Bytes ensures Boundary(b + t, |b|) {
      AfterContinuations(b + t, |b|);
    }
  }

  lemma AllOfIt(b: Bytes, i: nat)
    requires i < |b| && RuneStart(b[i]) && FullRune(b[i..])
    requires forall j :: i < j < |b| ==> Continuation(b[j])
    ensures EndsCharacter(b, |b|)
  {
    hide Boundary;
    forall t: Bytes ensures Boundary(b + t, |b|) {
      var s, p := b + t, b[i..];
      RuneStartIsBoundary(s, i);
      assert s[i..] == p + t;
      FullRuneDecides(p, t);
      WidthEnds(s[i..]);
      ContinuationsEndAnywhere(s[i..][Width(p)..], |p| - Width(p));
      BoundaryThen(s[i..], Width(p), |p|);
      BoundaryThen(s, i, |b|);
    }
  }

  lemma WidthEnds(s: Bytes)
    requires s != []
    ensures Boundary(s, Width(s))
  {
  }

  lemma {:induction false} ContinuationsEndAnywhere(s: Bytes, c: nat)
    requires c <= |s| && forall j :: 0 <= j < c ==> Continuation(s[j])
    ensures Boundary(s, c)
    decreases c
  {
    if c > 0 {
      ContinuationsEndAnywhere(s[1..], c - 1);
    }
  }

  /** A frame may end at `c`: after a whole character, and not inside a CRLF. */
  ghost predicate FrameEnd(s: Bytes, c: nat) {
    && c <= |s| && Boundary(s, c)
    && !(0 < c < |s| && s[c - 1] == CR && s[c] == LF)
  }

  /** A cut of the bytes at hand that is a frame end however the file goes on. */
  ghost predicate CleanCut(b: Bytes, c: nat) {
    && EndsCharacter(b, c)
    && (c > 0 && b[c - 1] == CR ==> c < |b| && b[c] != LF)
  }

  /** What is carried to the next read: an undecided character, with a CR before
      it perhaps, or a CR alone; never more than four bytes. */
  predicate Carried(h: Bytes) {
    && |h| <= UTF_MAX
    && (h == [] || Undecided(h) || (h[0] == CR && (|h| == 1 || Undecided(h[1..]))))
  }

  lemma CutBeforeCR(b: Bytes, n: nat)
    requires n <= |b| && EndsCharacter(b, n)
    requires n < |b| ==> Undecided(b[n..]) && |b| - n < UTF_MAX
    ensures var cut := if n > 0 && b[n - 1] == CR then n - 1 else n;
      CleanCut(b, cut) && Carried(b[cut..])
  {
    if n > 0 && b[n - 1] == CR {
      LeadBegins(b, n - 1);
      assert b[n - 1..][1..] == b[n..];
      if n < |b| && b[n] == LF {
        assert b[n..][0] == LF;
      }
    }
  }

  /** Where a buffer is cut. */
  method CutOf(b: Bytes) returns (cut: nat)
    ensures cut == |b| - KeptBack(b)
    ensures CleanCut(b, cut) && Carried(b[cut..])
  {
    hide EndsCharacter, CleanCut, Carried, Undecided, OpenLength;
    cut := CompleteRunes(b);
    CutBeforeCR(b, cut);
    if cut > 0 && b[cut - 1] == CR {
      cut := cut - 1;
    }
  }

  /** Four bytes kept back are possible, so the buffer's four spare bytes are needed. */
  lemma CarriedBoundIsTight()
    ensures KeptBack([CR, 0xF0, 0x90, 0x80]) == UTF_MAX
  {
    var b: Bytes := [CR, 0xF0, 0x90, 0x80];
    assert b[1..] == [0xF0, 0x90, 0x80];
    assert OpenAtEnd(b, 3);
    OpenOnce(b, 3, OpenLength(b));
  }

  /** What a cut keeps back shows in the last four bytes. */
  lemma {:induction false} KeptBackIsLocal(a: Bytes, b: Bytes)
    requires |b| >= UTF_MAX
    ensures KeptBack(a + b) == KeptBack(b[|b| - UTF_MAX..])
  {
    hide Undecided;
    var e := b[|b| - UTF_MAX..];
    SameEnd(a, b, 1);
    SameEnd(a, b, 2);
    SameEnd(a, b, 3);
    assert OpenLength(a + b) == OpenLength(e);
    hide OpenLength, OpenAtEnd;
    SameByte(a, b, OpenLength(e));
  }

  lemma SameEnd(a: Bytes, b: Bytes, n: nat)
    requires n <= UTF_MAX <= |b|
    ensures OpenAtEnd(a + b, n) <==> OpenAtEnd(b[|b| - UTF_MAX..], n)
  {
    hide Undecided;
    var s, e := a + b, b[|b| - UTF_MAX..];
    assert s[|s| - n..] == b[|b| - n..] == e[|e| - n..];
  }

  lemma SameByte(a: Bytes, b: Bytes, n: nat)
    requires n < UTF_MAX <= |b|
    ensures (a + b)[|a + b| - n - 1] == b[|b| - UTF_MAX..][UTF_MAX - n - 1]
  {
  }

  /** The limit on a read does not limit a frame. A frame is over it exactly when the
      read, of four bytes at least, and what was carried into it are together over the
      limit by more than the last four bytes of the read keep back. */
  lemma {:induction false} FrameExceedsTheLimitIff(h: Bytes, read: Bytes)
    requires Carried(h) && |read| <= LOG_FRAME_MAX
    ensures |Frame(h + read)| > LOG_FRAME_MAX <==>
            |read| >= UTF_MAX && |h| + |read| > LOG_FRAME_MAX + KeptBack(read[|read| - UTF_MAX..])
    ensures |Frame(h + read)| <= LOG_FRAME_MAX + UTF_MAX
  {
    hide Undecided, KeptBack;
    if |read| >= UTF_MAX {
      KeptBackIsLocal(h, read);
    }
  }

  /** It happens: what one read leaves is all carried, and the next makes a frame
      four bytes over the limit. */
  lemma FrameCanExceedTheLimit(first: Bytes, next: Bytes)
    requires first == [CR, 0xF0, 0x90, 0x80] && next == [0x80] + seq(LOG_FRAME_MAX - 1, _ => 0x61)
    ensures Frame(first) == [] && Remainder(first) == first && |next| == LOG_FRAME_MAX
    ensures |Frame(first + next)| == LOG_FRAME_MAX + UTF_MAX
  {
    CarriedBoundIsTight();
    var b := first + next;
    assert b[|b| - 1] == 0x61;
    assert b[|b| - 1..] == [0x61];
    assert FullRune([0x61]);
    NothingOpen(b, |b| - 1);
  }

  ghost predicate Framed(whole: Bytes, frames: seq<Bytes>) {
    && Flatten(frames) <= whole
    && forall k :: 0 <= k <= |frames| ==> FrameEnd(whole, |Flatten(frames[..k])|)
  }

  lemma FramedAppend(whole: Bytes, frames: seq<Bytes>, f: Bytes)
    requires Framed(whole, frames)
    requires Flatten(frames) + f <= whole && FrameEnd(whole, |Flatten(frames)| + |f|)
    ensures Framed(whole, frames + [f])
    ensures Flatten(frames + [f]) == Flatten(frames) + f
  {
    hide FrameEnd, Flatten;
    FlattenLast(frames, f);
    forall k | 0 <= k <= |frames| + 1
      ensures FrameEnd(whole, |Flatten((frames + [f])[..k])|)
    {
      assert (frames + [f])[..k] == if k <= |frames| then frames[..k] else frames + [f];
    }
  }

  /** A clean cut of the buffer makes one more frame of the file. */
  lemma FrameStep(whole: Bytes, frames: seq<Bytes>, b: Bytes, cut: nat)
    requires Framed(whole, frames) && Flatten(frames) + b <= whole
    requires CleanCut(b, cut)
    ensures Framed(whole, frames + [b[..cut]])
    ensures Flatten(frames + [b[..cut]]) + b[cut..] == Flatten(frames) + b
  {
    var sent := Flatten(frames);
    hide Flatten, Boundary;
    assert frames[..|frames|] == frames;
    EndAfter(whole, sent, b, cut);
    Rejoined(sent, b, cut);
    FramedAppend(whole, frames, b[..cut]);
  }

  lemma Rejoined(sent: Bytes, b: Bytes, cut: nat)
    requires cut <= |b|
    ensures (sent + b[..cut]) + b[cut..] == sent + b
    ensures sent + b[..cut] <= sent + b
  {
  }

  lemma EndAfter(whole: Bytes, sent: Bytes, b: Bytes, cut: nat)
    requires sent + b <= whole && FrameEnd(whole, |sent|)
    requires CleanCut(b, cut)
    ensures FrameEnd(whole, |sent| + cut)
  {
    hide Boundary;
    assert whole[|sent|..] == b + whole[|sent| + |b|..];
    BoundaryThen(whole, |sent|, |sent| + cut);
    if 0 < cut {
      assert whole[|sent| + cut - 1] == (sent + b)[|sent| + cut - 1];
    }
    if cut < |b| {
      assert whole[|sent| + cut] == (sent + b)[|sent| + cut];
    }
  }

  function UnitsOfAll(frames: seq<Bytes>): seq<Bytes> {
    if frames == [] then [] else UnitsOfAll(frames[..|frames| - 1]) + Units(frames[|frames| - 1])
  }

  /** Reading the frames' characters one frame at a time gives the characters of
      the file: no frame splits one. */
  lemma {:induction false} FramesDecodeApart(whole: Bytes, frames: seq<Bytes>)
    requires Framed(whole, frames)
    ensures Units(whole) == UnitsOfAll(frames) + Units(whole[|Flatten(frames)|..])
  {
    hide Units, FrameEnd, Boundary;
    if frames == [] {
      assert whole[0..] == whole;
    } else {
      var before, f := frames[..|frames| - 1], frames[|frames| - 1];
      assert frames == before + [f];
      FlattenLast(before, f);
      assert forall k :: 0 <= k <= |before| ==> before[..k] == frames[..k];
      FramesDecodeApart(whole, before);
      var p := |Flatten(before)|;
      assert frames[..|frames|] == frames;
      BetweenFrameEnds(whole, p, p + |f|);
      assert whole[p..][..|f|] == f;
      assert whole[p..][|f|..] == whole[p + |f|..];
    }
  }

  /** Both ends of a frame are boundaries of the file, so the frame's own end is
      one of what follows its start. */
  lemma BetweenFrameEnds(whole: Bytes, p: nat, q: nat)
    requires p <= q && FrameEnd(whole, p) && FrameEnd(whole, q)
    ensures Units(whole[p..]) == Units(whole[p..][..q - p]) + Units(whole[p..][q - p..])
  {
    hide Boundary, Units;
    BoundaryBetween(whole, p, q);
    UnitsAcross(whole[p..], q - p);
  }

  lemma {:induction false} BoundaryBetween(s: Bytes, p: nat, q: nat)
    requires p <= q <= |s| && Boundary(s, p) && Boundary(s, q)
    ensures Boundary(s[p..], q - p)
    decreases p
  {
    hide Width;
    if p == 0 {
      assert s[0..] == s;
    } else {
      var w := Width(s);
      assert s[w..][p - w..] == s[p..];
      BoundaryBetween(s[w..], p - w, q - w);
    }
  }

  /** An open log file: `whole` is everything it will ever hold, `size` how much
      of that has been written, `limit` where a capped tab stops reading. */
  class Source {
    const whole: Bytes
    const limit: Option<nat>
    var size: nat
    var pos: nat
    ghost var failures: nat // reads that have failed

    constructor (whole: Bytes, size: nat, limit: Option<nat>)
      requires size <= |whole|
      ensures Valid() && pos == 0 && failures == 0
      ensures this.whole == whole && this.size == size && this.limit == limit
    {
      this.whole, this.size, this.limit, pos, failures := whole, size, limit, 0, 0;
    }

    ghost predicate Valid()
      reads this
    {
      && pos <= size <= |whole|
      && (limit.Some? ==> pos <= limit.value)
    }

    /** Nothing is left to read: the end of the file, or the cap. */
    predicate Drained()
      reads this
    {
      pos == size || limit == Some(pos)
    }

    /** One read of up to `max` bytes into `buf` from `at` on, while the file may
        grow; bytes may come with an error. */
    method Read(buf: array<Byte>, at: nat, max: nat) returns (n: nat, err: ReadError)
      requires Valid() && 0 < max && at + max <= buf.Length
      modifies this, buf
      ensures Valid() && old(size) <= size && pos == old(pos) + n && n <= max
      ensures buf[..at] == old(buf[..at])
      ensures buf[at..at + n] == whole[old(pos)..pos]
      ensures err.NoError? ==> n > 0
      ensures err.EndOfFile? ==> Drained()
      ensures failures == old(failures) + if err.ReadFailed? then 1 else 0
    {
      var grown: nat :| size <= grown <= |whole|;
      size := grown;
      var end := if limit.Some? && limit.value < size then limit.value else size;
      n :| 0 <= n <= max && pos + n <= end;
      forall j | at <= j < at + n {
        buf[j] := whole[pos + j - at];
      }
      ghost var got, want := buf[at..at + n], whole[pos..pos + n];
      forall i | 0 <= i < n
        ensures got[i] == want[i]
      {
        assert buf[at + i] == whole[pos + (at + i) - at];
      }
      assert got == want;
      pos := pos + n;
      var fault: bool := *;
      var early: bool := *;
      err := if fault then ReadFailed
             else if pos == end && (n == 0 || early) then EndOfFile
             else if n == 0 then ReadFailed
             else NoError;
      failures := failures + if err.ReadFailed? then 1 else 0;
    }
  }

  class LogStream {
    const src: Source
    const buf: array<Byte>
    var held: nat
    ghost var frames: seq<Bytes>
    ghost var unsent: nat // frames the client was gone for

    constructor (src: Source)
      requires src.Valid() && src.pos == 0
      ensures Valid() && frames == [] && unsent == 0 && this.src == src && fresh(buf)
    {
      this.src, held, frames, unsent := src, 0, [], 0;
      buf := new Byte[LOG_FRAME_MAX + UTF_MAX];
    }

    /** The frames sent cover the file from its start, each ends where a frame
        may, and none reaches past the cap. */
    ghost predicate Sound()
      reads this, src
    {
      && src.Valid()
      && Framed(src.whole, frames)
      && |Flatten(frames)| <= src.pos
      && forall i :: 0 <= i < |frames| ==> 0 < |frames[i]| <= LOG_FRAME_MAX + UTF_MAX
    }

    /** The frames and the held bytes are what was read so far. */
    ghost predicate Valid()
      reads this, src, buf
    {
      && Sound()
      && buf.Length == LOG_FRAME_MAX + UTF_MAX
      && held <= UTF_MAX
      && Carried(buf[..held])
      && Flatten(frames) + buf[..held] == src.whole[..src.pos]
    }

    /** Hand a frame to the client, which may have gone. */
    method Send(frame: Bytes) returns (ok: bool)
      modifies this`frames, this`unsent
      ensures frames == if ok then old(frames) + [frame] else old(frames)
      ensures unsent == old(unsent) + if ok then 0 else 1
    {
      ok := *;
      if ok {
        frames := frames + [frame];
      } else {
        unsent := unsent + 1;
      }
    }

    /** Move what follows `cut` to the front. */
    method Keep(cut: nat, total: nat)
      requires cut <= total <= buf.Length
      modifies this`held, buf
      ensures held == total - cut && buf[..held] == old(buf[..total][cut..])
    {
      forall i | 0 <= i < total - cut {
        buf[i] := buf[cut + i];
      }
      held := total - cut;
    }

    /** Cut what is in the buffer, send it, and keep the rest: the frame and the
        remainder of its contents. */
    method Forward(total: nat) returns (ok: bool)
      requires Sound()
      requires total <= buf.Length == LOG_FRAME_MAX + UTF_MAX
      requires Flatten(frames) + buf[..total] == src.whole[..src.pos]
      modifies this, buf
      ensures var b := old(buf[..total]);
        if ok then Valid() && buf[..held] == Remainder(b)
                   && frames == old(frames) + if Frame(b) == [] then [] else [Frame(b)]
        else Sound() && frames == old(frames)
      ensures unsent == old(unsent) + if ok then 0 else 1
    {
      hide CleanCut, Framed, Carried, Flatten, KeptBack;
      ghost var b := buf[..total];
      var cut := CutOf(buf[..total]);
      CarriedLength(b[cut..]);
      assert b[0..] == b;
      if cut > 0 {
        FrameStep(src.whole, frames, b, cut);
        FramedLength(src.whole, frames + [b[..cut]]);
        assert buf[..cut] == b[..cut];
        ok := Send(buf[..cut]);
        if !ok {
          return;
        }
      }
      Keep(cut, total);
      return true;
    }

    /** Read and send until nothing is left, or a read fails or the client is gone.
        All that was read, with a failing read too, has been sent or is held, but for
        what a client that is gone did not take. */
    method Drain() returns (ok: bool)
      requires Valid()
      modifies this, src, buf
      ensures old(frames) <= frames && Sound()
      ensures ok ==> src.Drained() && src.failures == old(src.failures)
      ensures !ok ==> src.failures > old(src.failures) || unsent > old(unsent)
      ensures unsent == old(unsent) ==> Valid()
      ensures ok ==> unsent == old(unsent)
    {
      while true
        invariant Valid() && old(frames) <= frames
        invariant src.failures == old(src.failures) && unsent == old(unsent)
        decreases |src.whole| - src.pos
      {
        ghost var before, from := buf[..held], src.pos;
        var n, err := src.Read(buf, held, LOG_FRAME_MAX);
        if n > 0 {
          assert buf[..held + n] == before + src.whole[from..src.pos];
          ReadOn(Flatten(frames), before, src.whole, from, src.pos);
          ok := Forward(held + n);
          if !ok {
            return;
          }
        }
        match err {
          case NoError =>
          case EndOfFile =>
            return true;
          case ReadFailed =>
            return false;
        }
      }
    }
  }

  lemma ReadOn(sent: Bytes, held: Bytes, whole: Bytes, from: nat, to: nat)
    requires from <= to <= |whole| && sent + held == whole[..from]
    ensures sent + (held + whole[from..to]) == whole[..to]
  {
    assert sent + (held + whole[from..to]) == (sent + held) + whole[from..to];
  }

  lemma FramedLength(whole: Bytes, frames: seq<Bytes>)
    ensures Framed(whole, frames) ==> Flatten(frames) <= whole
  {
  }

  lemma CarriedLength(h: Bytes)
    ensures Carried(h) ==> |h| <= UTF_MAX
  {
  }
}
