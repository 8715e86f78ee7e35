/** The pieces of Go's `strings` package the tool relies on: `Split` with a
    one-character separator (the tool splits on "." and ","), its inverse
    `Join`, and `TrimSpace`. Strings are sequences of Unicode scalar values. */
module GoStrings {

  /** Number of occurrences of `c` in `s`. */
  function Count(s: string, c: char): nat
  {
    if |s| == 0 then 0 else (if s[0] == c then 1 else 0) + Count(s[1..], c)
  }

  /** Concatenates `parts`, putting `sep` between neighbours. */
  function Join(parts: seq<string>, sep: char): string
    requires |parts| > 0
  {
    if |parts| == 1 then parts[0] else parts[0] + [sep] + Join(parts[1..], sep)
  }

  /** `strings.Split(s, string(sep))`: the maximal `sep`-free pieces of `s`,
      in order. The empty string yields one empty piece. */
  function Split(s: string, sep: char): (parts: seq<string>)
    ensures |parts| == Count(s, sep) + 1
    ensures forall i :: 0 <= i < |parts| ==> sep !in parts[i]
    ensures Join(parts, sep) == s
  {
    if |s| == 0 then [""]
    else
      var rest := Split(s[1..], sep);
      if s[0] == sep then [""] + rest
      else [[s[0]] + rest[0]] + rest[1..]
  }

  /** Splitting the join of `sep`-free pieces gives the pieces back: together
      with the `Join` clause of `Split` this makes the two mutually inverse. */
  lemma {:induction false} SplitJoin(parts: seq<string>, sep: char)
    requires |parts| > 0
    requires forall i :: 0 <= i < |parts| ==> sep !in parts[i]
    ensures Split(Join(parts, sep), sep) == parts
    decreases |parts|
  {
    if |parts| == 1 {
      SplitFree(parts[0], sep);
    } else {
      SplitJoin(parts[1..], sep);
      SplitAfterPiece(parts[0], Join(parts[1..], sep), sep);
      assert [parts[0]] + parts[1..] == parts;
    }
  }

  /** A `sep`-free string is a single piece. */
  lemma {:induction false} SplitFree(p: string, sep: char)
    requires sep !in p
    ensures Split(p, sep) == [p]
    decreases |p|
  {
    if |p| > 0 {
      SplitFree(p[1..], sep);
    }
  }

  /** A `sep`-free prefix followed by `sep` contributes exactly one piece. */
  lemma {:induction false} SplitAfterPiece(p: string, rest: string, sep: char)
    requires sep !in p
    ensures Split(p + [sep] + rest, sep) == [p] + Split(rest, sep)
    decreases |p|
  {
    var s := p + [sep] + rest;
    if |p| == 0 {
      assert s == [sep] + rest;
      assert s[1..] == rest;
    } else {
      assert s[1..] == p[1..] + [sep] + rest;
      SplitAfterPiece(p[1..], rest, sep);
      assert [p[0]] + p[1..] == p;
    }
  }

  /** The last piece of a split is the longest `sep`-free suffix of `s`:
      it is a suffix, and unless it is all of `s` a `sep` precedes it. */
  lemma LastPieceIsSuffix(s: string, sep: char)
    ensures var last := Split(s, sep)[Count(s, sep)];
      && |last| <= |s|
      && s[|s| - |last|..] == last
      && (|last| < |s| ==> s[|s| - |last| - 1] == sep)
  {
    var parts := Split(s, sep);
    JoinEndsWithLast(parts, sep);
  }

  /** The join ends with the last part, and a `sep` precedes it when there
      is more than one part. */
  lemma {:induction false} JoinEndsWithLast(parts: seq<string>, sep: char)
    requires |parts| > 0
    ensures var j, last := Join(parts, sep), parts[|parts| - 1];
      && |last| <= |j|
      && j[|j| - |last|..] == last
      && (|parts| > 1 ==> |last| < |j| && j[|j| - |last| - 1] == sep)
    decreases |parts|
  {
    if |parts| > 1 {
      JoinEndsWithLast(parts[1..], sep);
      var j, tail := Join(parts, sep), Join(parts[1..], sep);
      var last := parts[|parts| - 1];
      assert j == parts[0] + [sep] + tail;
      assert j[|j| - |last|..] == tail[|tail| - |last|..];
      if |parts| == 2 {
        assert tail == last;
      }
    }
  }

  /** Whitespace as Go's `unicode.IsSpace` defines it: the Latin-1 spaces and
      every other character with the Unicode White_Space property. */
  predicate IsSpace(c: char)
  {
    || ('\t' <= c <= '\r')   // tab, line feed, vertical tab, form feed, carriage return
    || c == ' '
    || c == '\U{0085}' || c == '\U{00A0}' || c == '\U{1680}'
    || ('\U{2000}' <= c <= '\U{200A}')
    || c == '\U{2028}' || c == '\U{2029}' || c == '\U{202F}' || c == '\U{205F}' || c == '\U{3000}'
  }

  /** Drops leading whitespace. */
  function TrimLeft(s: string): (t: string)
    ensures |t| <= |s| && t == s[|s| - |t|..]
    ensures forall k :: 0 <= k < |s| - |t| ==> IsSpace(s[k])
    ensures |t| > 0 ==> !IsSpace(t[0])
  {
    if |s| > 0 && IsSpace(s[0]) then TrimLeft(s[1..]) else s
  }

  /** Drops trailing whitespace. */
  function TrimRight(s: string): (t: string)
    ensures |t| <= |s| && t == s[..|t|]
    ensures forall k :: |t| <= k < |s| ==> IsSpace(s[k])
    ensures |t| > 0 ==> !IsSpace(t[|t| - 1])
  {
    if |s| > 0 && IsSpace(s[|s| - 1]) then TrimRight(s[..|s| - 1]) else s
  }

  /** `t` sits at offset `i` of `s`, and everything of `s` around it is
      whitespace. */
  ghost predicate Framed(s: string, i: int, t: string)
  {
    && 0 <= i <= |s| - |t|
    && s[i..i + |t|] == t
    && (forall k :: 0 <= k < i ==> IsSpace(s[k]))
    && (forall k :: i + |t| <= k < |s| ==> IsSpace(s[k]))
  }

  /** `strings.TrimSpace`: the part of `s` between its leading and trailing
      whitespace. */
  function TrimSpace(s: string): (t: string)
    ensures exists i :: Framed(s, i, t)
    ensures |t| > 0 ==> !IsSpace(t[0]) && !IsSpace(t[|t| - 1])
    ensures |t| == 0 <==> forall k :: 0 <= k < |s| ==> IsSpace(s[k])
  {
    var l := TrimLeft(s);
    var t := TrimRight(l);
    InnerSlice(s, l, t);
    TrailingSpace(s, l, t);
    AllSpaceTrimsToEmpty(s);
    assert Framed(s, |s| - |l|, t);
    t
  }

  /** A prefix of a suffix of `s` is a slice of `s`. */
  lemma InnerSlice(s: string, l: string, t: string)
    requires |l| <= |s| && s[|s| - |l|..] == l
    requires |t| <= |l| && l[..|t|] == t
    ensures s[|s| - |l|..|s| - |l| + |t|] == t
  {
    var i := |s| - |l|;
    assert forall k :: 0 <= k < |t| ==> s[i + k] == l[k];
  }

  /** Whitespace removed from the end of a suffix of `s` is whitespace of `s`. */
  lemma TrailingSpace(s: string, l: string, t: string)
    requires |l| <= |s| && s[|s| - |l|..] == l
    requires |t| <= |l| && forall k :: |t| <= k < |l| ==> IsSpace(l[k])
    ensures forall k :: |s| - |l| + |t| <= k < |s| ==> IsSpace(s[k])
  {
    var i := |s| - |l|;
    forall k | i + |t| <= k < |s|
      ensures IsSpace(s[k])
    {
      assert s[k] == l[k - i];
    }
  }

  /** Trimming leaves nothing exactly when everything is whitespace. */
  lemma AllSpaceTrimsToEmpty(s: string)
    ensures |TrimRight(TrimLeft(s))| == 0 <==> forall k :: 0 <= k < |s| ==> IsSpace(s[k])
  {
    var l := TrimLeft(s);
    if |TrimRight(l)| == 0 {
      TrailingSpace(s, l, "");
    } else if |l| > 0 {
      assert l[0] == s[|s| - |l|];
    }
  }
}
