/** Byte strings and their division into newline-terminated lines. */
module Lines {
  newtype Byte = x: int | 0 <= x < 256
  type Bytes = seq<Byte>

  const LF: Byte := 10
  const CR: Byte := 13

  /** The index of the first newline of `s`, or `|s|` when it has none. */
  function FirstBreak(s: Bytes): (n: nat)
    ensures n <= |s|
    ensures n < |s| ==> s[n] == LF
    ensures forall k :: 0 <= k < n ==> s[k] != LF
  {
    if s == [] || s[0] == LF then 0 else 1 + FirstBreak(s[1..])
  }

  /** The newline-terminated lines of `s`, each with its newline. */
  function Complete(s: Bytes): seq<Bytes>
    decreases |s|
  {
    var n := FirstBreak(s);
    if n == |s| then [] else [s[..n + 1]] + Complete(s[n + 1..])
  }

  /** What follows the last newline of `s`. */
  function Rest(s: Bytes): Bytes
    decreases |s|
  {
    var n := FirstBreak(s);
    if n == |s| then s else Rest(s[n + 1..])
  }

  /** Every line of `s`, a last one without its newline included. */
  function AllLines(s: Bytes): seq<Bytes> {
    Complete(s) + if Rest(s) == [] then [] else [Rest(s)]
  }

  function Flatten(lines: seq<Bytes>): Bytes {
    if lines == [] then [] else lines[0] + Flatten(lines[1..])
  }

  lemma FirstBreakIs(s: Bytes, n: nat)
    requires n <= |s|
    requires n < |s| ==> s[n] == LF
    requires forall k :: 0 <= k < n ==> s[k] != LF
    ensures FirstBreak(s) == n
  {
  }

  /** Splitting a byte string in two and carrying the unfinished line across the
      cut loses no line and invents none. */
  lemma {:induction false} CompleteAppend(a: Bytes, b: Bytes)
    ensures Complete(a + b) == Complete(a) + Complete(Rest(a) + b)
    ensures Rest(a + b) == Rest(Rest(a) + b)
    decreases |a|
  {
    hide FirstBreak, Complete, Rest;
    var n := FirstBreak(a);
    if n == |a| {
      NoLine(a);
      assert [] + Complete(a + b) == Complete(a + b);
    } else {
      var rest := a[n + 1..];
      FirstBreakIs(a + b, n);
      SlicesAppend(a, b, n + 1);
      CompleteAppend(rest, b);
      FirstLine(a);
      FirstLine(a + b);
      Associate([a[..n + 1]], Complete(rest), Complete(Rest(rest) + b));
    }
  }

  lemma {:induction false} NoLine(s: Bytes)
    requires FirstBreak(s) == |s|
    ensures Complete(s) == [] && Rest(s) == s
  {
  }

  lemma {:induction false} SlicesAppend(a: Bytes, b: Bytes, n: nat)
    requires n <= |a|
    ensures (a + b)[..n] == a[..n] && (a + b)[n..] == a[n..] + b
  {
  }

  /** The lines of `s` followed by its unfinished one are `s` itself. */
  lemma {:induction false} LinesAreTheBytes(s: Bytes)
    ensures Flatten(Complete(s)) + Rest(s) == s
    decreases |s|
  {
    var n := FirstBreak(s);
    if n < |s| {
      var line, rest := s[..n + 1], s[n + 1..];
      LinesAreTheBytes(rest);
      FirstLine(s);
      hide Complete, Rest, FirstBreak;
      FlattenCons(line, Complete(rest));
      Associate(line, Flatten(Complete(rest)), Rest(rest));
      Joined(s, n + 1);
    }
  }

  /** So nothing of `s` is missing from its lines, each of which but the last ends in
      its one newline. */
  lemma {:induction false} AllLinesAreTheBytes(s: Bytes)
    ensures Flatten(AllLines(s)) == s
    ensures forall i :: 0 <= i < |Complete(s)| ==>
      Complete(s)[i] != [] && FirstBreak(Complete(s)[i]) == |Complete(s)[i]| - 1
  {
    LinesAreTheBytes(s);
    EndInBreaks(s);
    hide Complete, Rest, FirstBreak;
    if Rest(s) == [] {
      assert AllLines(s) == Complete(s) && Flatten(Complete(s)) + [] == Flatten(Complete(s));
    } else {
      FlattenLast(Complete(s), Rest(s));
    }
  }

  lemma {:induction false} FlattenAppend(a: seq<Bytes>, b: seq<Bytes>)
    ensures Flatten(a + b) == Flatten(a) + Flatten(b)
  {
    if a == [] {
      assert [] + b == b && Flatten(b) == [] + Flatten(b);
    } else {
      FlattenAppend(a[1..], b);
      assert (a + b)[1..] == a[1..] + b;
      Associate(a[0], Flatten(a[1..]), Flatten(b));
    }
  }

  lemma {:induction false} FlattenLast(lines: seq<Bytes>, last: Bytes)
    ensures Flatten(lines + [last]) == Flatten(lines) + last
  {
    FlattenAppend(lines, [last]);
    assert [last] == [last] + [];
    FlattenCons(last, []);
  }

  lemma {:induction false} EndInBreaks(s: Bytes)
    ensures forall i :: 0 <= i < |Complete(s)| ==>
      Complete(s)[i] != [] && FirstBreak(Complete(s)[i]) == |Complete(s)[i]| - 1
    decreases |s|
  {
    var n := FirstBreak(s);
    if n < |s| {
      EndInBreaks(s[n + 1..]);
      FirstLine(s);
      FirstBreakIs(s[..n + 1], n);
      hide FirstBreak, Complete;
      var line, more := s[..n + 1], Complete(s[n + 1..]);
      assert forall i :: 0 < i < |[line] + more| ==> ([line] + more)[i] == more[i - 1];
    }
  }

  lemma {:induction false} FirstLine(s: Bytes)
    requires FirstBreak(s) < |s|
    ensures var n := FirstBreak(s);
      Complete(s) == [s[..n + 1]] + Complete(s[n + 1..]) && Rest(s) == Rest(s[n + 1..])
  {
  }

  lemma {:induction false} FlattenCons(line: Bytes, more: seq<Bytes>)
    ensures Flatten([line] + more) == line + Flatten(more)
  {
    assert ([line] + more)[1..] == more;
  }

  lemma {:induction false} Associate<T>(a: seq<T>, b: seq<T>, c: seq<T>)
    ensures (a + b) + c == a + (b + c)
  {
  }

  lemma {:induction false} RestHasNoBreak(s: Bytes)
    ensures FirstBreak(Rest(s)) == |Rest(s)|
    ensures Complete(Rest(s)) == [] && Rest(Rest(s)) == Rest(s)
    decreases |s|
  {
    if FirstBreak(s) < |s| {
      RestHasNoBreak(s[FirstBreak(s) + 1..]);
    }
  }

  /** Appending one whole line to a string that ends on a line boundary. */
  lemma AppendLine(a: Bytes, line: Bytes)
    requires Rest(a) == []
    requires line != [] && FirstBreak(line) == |line| - 1
    ensures Complete(a + line) == Complete(a) + [line] && Rest(a + line) == []
  {
    CompleteAppend(a, line);
    EmptyLeft(line);
    assert line[|line|..] == [];
    assert line[..|line|] == line;
  }

  lemma AppendFragment(a: Bytes, b: Bytes)
    requires Rest(a) == []
    requires FirstBreak(b) == |b|
    ensures Complete(a + b) == Complete(a) && Rest(a + b) == b
  {
    CompleteAppend(a, b);
    EmptyLeft(b);
  }

  /** More bytes only ever add lines at the end. */
  lemma CompleteMonotone(a: Bytes, b: Bytes)
    requires a <= b
    ensures Complete(a) <= Complete(b)
  {
    CompleteAppend(a, b[|a|..]);
    Joined(b, |a|);
    assert b[..|a|] == a;
  }

  lemma Split(s: Bytes, i: nat, j: nat, k: nat)
    requires i <= j <= k <= |s|
    ensures s[i..k] == s[i..j] + s[j..k]
  {
  }

  lemma Joined(s: Bytes, i: nat)
    requires i <= |s|
    ensures s[..i] + s[i..] == s
  {
  }

  lemma EmptyLeft(s: Bytes)
    ensures [] + s == s
  {
  }

  /** A cut on a line boundary separates the lines. */
  lemma LinesAcross(s: Bytes, i: nat)
    requires i <= |s| && Rest(s[..i]) == []
    ensures Complete(s) == Complete(s[..i]) + Complete(s[i..])
    ensures Rest(s) == Rest(s[i..])
  {
    Joined(s, i);
    CompleteAppend(s[..i], s[i..]);
    EmptyLeft(s[i..]);
  }

  lemma LinesAcrossBefore(s: Bytes, i: nat, j: nat)
    requires i <= j <= |s| && Rest(s[..i]) == []
    ensures Complete(s[..j]) == Complete(s[..i]) + Complete(s[i..j])
    ensures Rest(s[..j]) == Rest(s[i..j])
  {
    var t := s[..j];
    assert t[..i] == s[..i];
    assert t[i..] == s[i..j];
    LinesAcross(t, i);
  }
}
