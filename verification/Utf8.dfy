/** How a byte string divides into characters when decoded front to back: the
    well-formed byte sequences of section 4 of RFC 3629, and any other byte on its
    own. */
module Utf8 {
  import opened Lines

  const UTF_MAX := 4

  predicate Continuation(b: Byte) {
    0x80 <= b < 0xC0
  }

  /** A byte that can only come first in a character. */
  predicate RuneStart(b: Byte) {
    !Continuation(b)
  }

  /** The length a leading byte announces; 1 for a byte that leads nothing. */
  function Announced(b: Byte): (n: nat)
    ensures 1 <= n <= UTF_MAX
  {
    if 0xC2 <= b < 0xE0 then 2
    else if 0xE0 <= b < 0xF0 then 3
    else if 0xF0 <= b < 0xF5 then 4
    else 1
  }

  /** The second bytes that avoid overlong forms, surrogates and values past
      U+10FFFF. */
  predicate SecondByte(lead: Byte, b: Byte) {
    && Continuation(b)
    && (lead == 0xE0 ==> 0xA0 <= b)
    && (lead == 0xED ==> b < 0xA0)
    && (lead == 0xF0 ==> 0x90 <= b)
    && (lead == 0xF4 ==> b < 0x90)
  }

  /** `s` goes on well-formed for as long as it goes, up to `n` bytes. */
  predicate WellFormedUpTo(s: Bytes, n: nat)
    requires s != []
  {
    && (1 < n && 1 < |s| ==> SecondByte(s[0], s[1]))
    && forall i :: 2 <= i < n && i < |s| ==> Continuation(s[i])
  }

  /** How many bytes the first character takes; an ill-formed one takes one. */
  function Width(s: Bytes): (n: nat)
    requires s != []
    ensures 1 <= n <= UTF_MAX && n <= |s|
    ensures forall i :: 1 <= i < n ==> Continuation(s[i])
  {
    var n := Announced(s[0]);
    if n <= |s| && WellFormedUpTo(s, n) then n else 1
  }

  /** The characters of `s`, as the byte strings they take. */
  function Units(s: Bytes): seq<Bytes>
    decreases |s|
  {
    if s == [] then [] else [s[..Width(s)]] + Units(s[Width(s)..])
  }

  /** Position `c` falls between two characters of `s`. */
  predicate Boundary(s: Bytes, c: nat)
    requires c <= |s|
    decreases c
  {
    c == 0 || (Width(s) <= c && Boundary(s[Width(s)..], c - Width(s)))
  }

  /** The bytes of `p` decide its first character: it is there in full, or it is
      already ill-formed. */
  predicate FullRune(p: Bytes) {
    p != [] && (Announced(p[0]) <= |p| || !WellFormedUpTo(p, Announced(p[0])))
  }

  lemma {:induction false} BoundaryThen(s: Bytes, i: nat, c: nat)
    requires i <= c <= |s|
    requires Boundary(s, i) && Boundary(s[i..], c - i)
    ensures Boundary(s, c)
    decreases i
  {
    hide Width;
    if i > 0 {
      var w := Width(s);
      assert s[w..][i - w..] == s[i..];
      BoundaryThen(s[w..], i - w, c - w);
    } else {
      assert s[0..] == s;
    }
  }

  /** Whatever surrounds it, a leading byte begins a character. */
  lemma {:induction false} RuneStartIsBoundary(s: Bytes, c: nat)
    requires c < |s| && RuneStart(s[c])
    ensures Boundary(s, c)
    decreases c
  {
    if c > 0 {
      RuneStartIsBoundary(s[Width(s)..], c - Width(s));
    }
  }

  /** Three bytes that lead nothing cannot leave a character open. */
  lemma {:induction false} AfterContinuations(s: Bytes, c: nat)
    requires c <= |s|
    requires forall i :: 0 <= i < c && c - 3 <= i ==> Continuation(s[i])
    ensures Boundary(s, c)
    decreases c
  {
    if c > 0 {
      if Width(s) > c {
        assert false;
      }
      AfterContinuations(s[Width(s)..], c - Width(s));
    }
  }

  /** A decided character stays as it is however the string goes on. */
  lemma FullRuneDecides(p: Bytes, t: Bytes)
    requires FullRune(p)
    ensures Width(p + t) == Width(p)
  {
    var n := Announced(p[0]);
    assert (p + t)[0] == p[0];
    if !WellFormedUpTo(p, n) {
      assert |p| > 1 ==> (p + t)[1] == p[1];
      if i :| 2 <= i < n && i < |p| && !Continuation(p[i]) {
        assert (p + t)[i] == p[i];
      }
    } else {
      assert forall i :: 0 <= i < n ==> (p + t)[i] == p[i];
    }
  }

  /** Decoding the two sides of a boundary apart gives the characters of the whole. */
  lemma {:induction false} UnitsAcross(s: Bytes, c: nat)
    requires c <= |s| && Boundary(s, c)
    ensures Units(s) == Units(s[..c]) + Units(s[c..])
    decreases c
  {
    hide Width;
    if c == 0 {
      assert s[0..] == s && s[..0] == [];
    } else {
      var w := Width(s);
      var head, rest, front := s[..w], s[w..], s[..c];
      WidthOfPrefix(s, c);
      UnitsAcross(rest, c - w);
      assert front[..w] == head && front[w..] == rest[..c - w] && rest[c - w..] == s[c..];
      UnitsHead(s);
      UnitsHead(front);
      hide Units;
      var a, b := Units(rest[..c - w]), Units(s[c..]);
      Associate([head], a, b);
    }
  }

  lemma {:induction false} UnitsHead(s: Bytes)
    requires s != []
    ensures Units(s) == [s[..Width(s)]] + Units(s[Width(s)..])
  {
    hide Width;
  }

  lemma WidthOfPrefix(s: Bytes, c: nat)
    requires 0 < c <= |s| && Width(s) <= c
    ensures Width(s[..c]) == Width(s)
  {
    var n, p := Announced(s[0]), s[..c];
    assert forall i :: 0 <= i < c ==> p[i] == s[i];
    if n <= c && n <= |s| {
      assert WellFormedUpTo(p, n) <==> WellFormedUpTo(s, n);
    }
  }

  /** A Unicode scalar value. */
  predicate Scalar(v: int) {
    0 <= v < 0x11_0000 && !(0xD800 <= v < 0xE000)
  }

  /** Its encoding, section 3 of RFC 3629. */
  function Encode(v: int): (e: Bytes)
    requires Scalar(v)
    ensures 1 <= |e| <= UTF_MAX
  {
    if v < 0x80 then [v as Byte]
    else if v < 0x800 then [(0xC0 + v / 64) as Byte, (0x80 + v % 64) as Byte]
    else if v < 0x1_0000 then [(0xE0 + v / 64 / 64) as Byte, (0x80 + v / 64 % 64) as Byte, (0x80 + v % 64) as Byte]
    else [(0xF0 + v / 64 / 64 / 64) as Byte, (0x80 + v / 64 / 64 % 64) as Byte,
          (0x80 + v / 64 % 64) as Byte, (0x80 + v % 64) as Byte]
  }

  lemma EncodedIsWellFormed(v: int)
    requires Scalar(v)
    ensures var e := Encode(v); Announced(e[0]) == |e| && WellFormedUpTo(e, |e|) && (|e| == 1 ==> e[0] < 0x80)
  {
  }

  /** Decoding takes an encoded character whole, whatever follows it. */
  lemma EncodedIsOneUnit(v: int, s: Bytes)
    requires Scalar(v) && Encode(v) <= s
    ensures Width(s) == |Encode(v)| && (Width(s) == 1 ==> s[0] < 0x80)
  {
    var e := Encode(v);
    EncodedIsWellFormed(v);
    hide Encode;
    assert forall i :: 0 <= i < |e| ==> s[i] == e[i];
  }

  lemma WellFormedIsEncoded(s: Bytes) returns (v: int)
    requires 1 <= |s| <= UTF_MAX && Announced(s[0]) == |s| && WellFormedUpTo(s, |s|)
    requires |s| == 1 ==> s[0] < 0x80
    ensures Scalar(v) && Encode(v) == s
  {
    var a := s[0] as int;
    if |s| == 1 {
      v := a;
    } else if |s| == 2 {
      v := AppendBits(a - 0xC0, s[1]);
    } else if |s| == 3 {
      var hi := AppendBits(a - 0xE0, s[1]);
      v := AppendBits(hi, s[2]);
    } else {
      var top := AppendBits(a - 0xF0, s[1]);
      var hi := AppendBits(top, s[2]);
      v := AppendBits(hi, s[3]);
    }
  }

  /** A continuation byte appends six bits. */
  lemma AppendBits(hi: int, b: Byte) returns (v: int)
    requires 0 <= hi && Continuation(b)
    ensures v == hi * 64 + (b as int - 0x80) && v / 64 == hi && v % 64 == b as int - 0x80
  {
    v := hi * 64 + (b as int - 0x80);
  }

  /** And a unit is the encoding of a character, unless no character begins there. */
  lemma UnitsAreEncodings(s: Bytes)
    requires s != []
    ensures (exists v :: Scalar(v) && Encode(v) == s[..Width(s)])
            || (Width(s) == 1 && forall v :: Scalar(v) ==> !(Encode(v) <= s))
  {
    var w := Width(s);
    var u := s[..w];
    if w > 1 || s[0] < 0x80 {
      assert forall i :: 0 <= i < w ==> u[i] == s[i];
      var v := WellFormedIsEncoded(u);
    } else {
      forall v | Scalar(v) ensures !(Encode(v) <= s) {
        if Encode(v) <= s {
          EncodedIsOneUnit(v, s);
        }
      }
    }
  }

  /** Bytes are undecided exactly when they are the beginning of a character that is
      longer. */
  lemma UndecidedIff(p: Bytes)
    requires p != []
    ensures !FullRune(p) <==> exists v :: Scalar(v) && p < Encode(v)
  {
    if !FullRune(p) {
      var n, lead := Announced(p[0]), p[0];
      var second: Byte := if lead == 0xE0 then 0xA0 else if lead == 0xF0 then 0x90 else 0x80;
      var tail: Bytes := if |p| == 1 then [second] + seq(n - 2, _ => 0x80) else seq(n - |p|, _ => 0x80);
      var s := p + tail;
      assert forall i :: 0 <= i < |p| ==> s[i] == p[i];
      var v := WellFormedIsEncoded(s);
      assert p < Encode(v);
    }
    forall v | Scalar(v) && p < Encode(v) ensures !FullRune(p) {
      EncodedIsWellFormed(v);
      assert forall i :: 0 <= i < |p| ==> p[i] == Encode(v)[i];
    }
  }
}
