/**
 * The part of JavaScript's string semantics the components rely on:
 * `String.prototype.trim` and the blank test `!s.trim()`.
 *
 * A string is a sequence of characters and its `length` is the sequence length.
 * The whitespace set is the ECMAScript WhiteSpace and LineTerminator productions
 * with the space separators (category Zs) of Unicode written out.
 */
module JsStrings {
  import opened Sequences

  /** ECMAScript LineTerminator: LF, CR, LINE SEPARATOR, PARAGRAPH SEPARATOR. */
  predicate IsLineTerminator(c: char) {
    c == '\n' || c == '\r' || c == '\U{2028}' || c == '\U{2029}'
  }

  /** The characters `trim` strips, listed one by one: TAB, VT, FF, ZWNBSP,
      the Unicode space separators, and the line terminators. */
  const WhiteSpaceTable: set<char> := {
    '\t', '\U{000B}', '\U{000C}', '\U{FEFF}',
    ' ', '\U{00A0}', '\U{1680}',
    '\U{2000}', '\U{2001}', '\U{2002}', '\U{2003}', '\U{2004}', '\U{2005}',
    '\U{2006}', '\U{2007}', '\U{2008}', '\U{2009}', '\U{200A}',
    '\U{202F}', '\U{205F}', '\U{3000}',
    '\n', '\r', '\U{2028}', '\U{2029}'
  }

  /** ECMAScript WhiteSpace or LineTerminator: what `trim` strips. */
  predicate IsWhiteSpace(c: char)
    ensures IsWhiteSpace(c) <==> c in WhiteSpaceTable
  {
    || c == '\t' || c == '\U{000B}' || c == '\U{000C}' || c == '\U{FEFF}'
    || c == ' ' || c == '\U{00A0}' || c == '\U{1680}'
    || ('\U{2000}' <= c <= '\U{200A}')
    || c == '\U{202F}' || c == '\U{205F}' || c == '\U{3000}'
    || IsLineTerminator(c)
  }

  predicate AllWhiteSpace(s: string) {
    forall k :: 0 <= k < |s| ==> IsWhiteSpace(s[k])
  }

  /** Neither the first nor the last character is whitespace (vacuous for ""). */
  predicate NoOuterWhiteSpace(s: string) {
    s != [] ==> !IsWhiteSpace(s[0]) && !IsWhiteSpace(s[|s| - 1])
  }

  /** `trimStart`: drops the leading whitespace. It never lengthens `s`
      and shortens it only when `s` starts with whitespace; the full shape
      is stated by `TrimStartShape`. */
  function TrimStart(s: string): (r: string)
    ensures |r| <= |s|
    ensures |r| < |s| ==> IsWhiteSpace(s[0])
  {
    if s != [] && IsWhiteSpace(s[0]) then TrimStart(s[1..]) else s
  }

  /** `trimEnd`: drops the trailing whitespace. It never lengthens `s`
      and shortens it only when `s` ends with whitespace; the full shape
      is stated by `TrimEndShape`. */
  function TrimEnd(s: string): (r: string)
    ensures |r| <= |s|
    ensures |r| < |s| ==> IsWhiteSpace(s[|s| - 1])
  {
    if s != [] && IsWhiteSpace(s[|s| - 1]) then TrimEnd(s[..|s| - 1]) else s
  }

  /** `trim`: never longer than `s`, and a non-empty string without outer
      whitespace comes back as it is; `TrimShape` states the rest. */
  function Trim(s: string): (r: string)
    ensures |r| <= |s|
    ensures s != [] && !IsWhiteSpace(s[0]) && !IsWhiteSpace(s[|s| - 1]) ==> r == s
  {
    TrimEnd(TrimStart(s))
  }

  /** `trimStart` keeps a suffix, drops only whitespace, and stops at a
      character that is not whitespace. */
  lemma {:induction false} TrimStartShape(s: string)
    ensures |TrimStart(s)| <= |s| && TrimStart(s) == s[|s| - |TrimStart(s)|..]
    ensures AllWhiteSpace(s[..|s| - |TrimStart(s)|])
    ensures TrimStart(s) != [] ==> !IsWhiteSpace(TrimStart(s)[0])
  {
    if s != [] && IsWhiteSpace(s[0]) {
      TrimStartShape(s[1..]);
      var n := |s| - |TrimStart(s)|;
      assert s[..n] == [s[0]] + s[1..][..n - 1];
    }
  }

  /** `trimEnd` keeps a prefix, drops only whitespace, and stops at a
      character that is not whitespace. */
  lemma {:induction false} TrimEndShape(s: string)
    ensures |TrimEnd(s)| <= |s| && TrimEnd(s) == s[..|TrimEnd(s)|]
    ensures AllWhiteSpace(s[|TrimEnd(s)|..])
    ensures TrimEnd(s) != [] ==> !IsWhiteSpace(TrimEnd(s)[|TrimEnd(s)| - 1])
  {
    if s != [] && IsWhiteSpace(s[|s| - 1]) {
      var p := s[..|s| - 1];
      TrimEndShape(p);
      var n := |TrimEnd(s)|;
      assert s[n..] == p[n..] + [s[|s| - 1]];
    }
  }

  /** `trim` leaves no outer whitespace, and gives "" exactly for a string
      made only of whitespace. */
  lemma TrimShape(s: string)
    ensures |Trim(s)| <= |s|
    ensures NoOuterWhiteSpace(Trim(s))
    ensures Trim(s) == [] <==> AllWhiteSpace(s)
  {
    var t := TrimStart(s);
    TrimStartShape(s);
    TrimEndShape(t);
    assert t == [] ==> AllWhiteSpace(s) by {
      if t == [] { assert s[..|s| - |t|] == s; }
    }
    assert AllWhiteSpace(s) ==> t == [] by {
      if t != [] { assert s[|s| - |t|] == t[0]; }
    }
    if Trim(s) != [] {
      assert Trim(s)[0] == t[0];
    }
  }

  /** JavaScript's `!s.trim()`: the trimmed string is the falsy "". */
  predicate IsBlank(s: string) {
    Trim(s) == []
  }

  /** A string `trim` leaves as it is. */
  predicate IsTrimmed(s: string) {
    Trim(s) == s
  }

  /** The length of the leading whitespace `trim` drops. */
  function LeadCount(s: string): (n: nat)
    ensures n <= |s| && AllWhiteSpace(s[..n])
  {
    TrimStartShape(s);
    |s| - |TrimStart(s)|
  }

  /** The three pieces `trim` splits a string into: leading whitespace,
      the result, trailing whitespace. */
  lemma TrimDecompose(s: string)
    ensures LeadCount(s) + |Trim(s)| <= |s|
    ensures s == s[..LeadCount(s)] + Trim(s) + s[LeadCount(s) + |Trim(s)|..]
    ensures AllWhiteSpace(s[LeadCount(s) + |Trim(s)|..])
  {
    var i := LeadCount(s);
    var t := TrimStart(s);
    var r := Trim(s);
    TrimStartShape(s);
    TrimEndShape(t);
    assert t == s[i..];
    assert r == t[..|r|];
    assert r == s[i..i + |r|];
    assert t[|r|..] == s[i + |r|..];
    Split3(s, i, i + |r|);
  }

  lemma {:induction false} TrimStartPadded(w: string, t: string)
    requires AllWhiteSpace(w)
    requires t == [] || !IsWhiteSpace(t[0])
    ensures TrimStart(w + t) == t
  {
    if w != [] {
      assert (w + t)[1..] == w[1..] + t;
      TrimStartPadded(w[1..], t);
    } else {
      assert w + t == t;
    }
  }

  lemma {:induction false} TrimEndPadded(t: string, w: string)
    requires AllWhiteSpace(w)
    requires t == [] || !IsWhiteSpace(t[|t| - 1])
    ensures TrimEnd(t + w) == t
  {
    if w != [] {
      assert (t + w)[..|t + w| - 1] == t + w[..|w| - 1];
      TrimEndPadded(t, w[..|w| - 1]);
    } else {
      assert t + w == t;
    }
  }

  /** `trim` is characterised by its pieces: whatever whitespace surrounds
      a string without outer whitespace, trimming gives that string back. */
  lemma TrimPadded(w1: string, t: string, w2: string)
    requires AllWhiteSpace(w1) && AllWhiteSpace(w2) && NoOuterWhiteSpace(t)
    ensures Trim(w1 + t + w2) == t
  {
    if t == [] {
      assert w1 + t + w2 == w1 + w2;
      AllWhiteSpaceConcat(w1, w2);
      TrimShape(w1 + w2);
    } else {
      assert w1 + t + w2 == w1 + (t + w2);
      TrimStartPadded(w1, t + w2);
      TrimEndPadded(t, w2);
    }
  }

  /** Trimming twice is trimming once. */
  lemma TrimIdempotent(s: string)
    ensures IsTrimmed(Trim(s))
  {
    TrimShape(s);
    TrimPadded([], Trim(s), []);
    assert [] + Trim(s) + [] == Trim(s);
  }

  lemma AllWhiteSpaceConcat(a: string, b: string)
    requires AllWhiteSpace(a) && AllWhiteSpace(b)
    ensures AllWhiteSpace(a + b)
  {
    forall k | 0 <= k < |a + b| ensures IsWhiteSpace((a + b)[k]) {
      if k >= |a| { assert (a + b)[k] == b[k - |a|]; }
    }
  }

  /** Whitespace added around a string makes no difference to its trim. */
  lemma TrimIgnoresPadding(w1: string, s: string, w2: string)
    requires AllWhiteSpace(w1) && AllWhiteSpace(w2)
    ensures Trim(w1 + s + w2) == Trim(s)
  {
    TrimDecompose(s);
    TrimShape(s);
    var i := LeadCount(s);
    var r := Trim(s);
    var a, b := s[..i], s[i + |r|..];
    Regroup(w1, a, r, b, w2);
    AllWhiteSpaceConcat(w1, a);
    AllWhiteSpaceConcat(b, w2);
    TrimPadded(w1 + a, r, b + w2);
  }
}
