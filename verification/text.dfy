/** Whitespace and stripping as Python's `str.isspace`, `str.strip` and
    `str.rstrip` define them on text (code points, no normalisation). */
module Text {

  /** Python's `str.isspace()` on one code point; the regular-expression class
      `\s` matches exactly these characters in a text pattern. */
  predicate IsSpace(c: char)
    ensures c == ' ' || '\t' <= c <= '\r' ==> IsSpace(c)
    ensures IsSpace(c) ==> !('!' <= c <= '~')
  {
    || ('\t' <= c <= '\r') || ('\U{1C}' <= c <= '\U{1F}') || c == ' '
    || c == '\U{85}' || c == '\U{A0}' || c == '\U{1680}'
    || ('\U{2000}' <= c <= '\U{200A}') || c == '\U{2028}' || c == '\U{2029}'
    || c == '\U{202F}' || c == '\U{205F}' || c == '\U{3000}'
  }

  predicate AllSpace(s: string) {
    forall k :: 0 <= k < |s| ==> IsSpace(s[k])
  }

  /** No whitespace at either end: what `strip()` guarantees. */
  predicate NoOuterSpace(s: string) {
    s != [] ==> !IsSpace(s[0]) && !IsSpace(s[|s| - 1])
  }

  /** Length of the longest all-whitespace prefix of `s`. */
  function LeadingSpaces(s: string): (n: nat)
    ensures n <= |s|
    ensures forall k :: 0 <= k < n ==> IsSpace(s[k])
    ensures n < |s| ==> !IsSpace(s[n])
  {
    if s != [] && IsSpace(s[0]) then 1 + LeadingSpaces(s[1..]) else 0
  }

  /** Length of the longest all-whitespace suffix of `s`. */
  function TrailingSpaces(s: string): (n: nat)
    ensures n <= |s|
    ensures forall k :: |s| - n <= k < |s| ==> IsSpace(s[k])
    ensures n < |s| ==> !IsSpace(s[|s| - n - 1])
  {
    if s != [] && IsSpace(s[|s| - 1]) then 1 + TrailingSpaces(s[..|s| - 1]) else 0
  }

  /** `s.rstrip()` */
  function RStrip(s: string): (r: string)
    ensures |r| <= |s| && r == s[..|r|]
    ensures r != [] ==> !IsSpace(r[|r| - 1])
    ensures AllSpace(s[|r|..])
  {
    s[..|s| - TrailingSpaces(s)]
  }

  /** `s.strip()`: the slice of `s` left once whitespace is removed at both ends. */
  function Strip(s: string): (r: string)
    ensures NoOuterSpace(r)
    ensures LeadingSpaces(s) + |r| <= |s|
    ensures r == s[LeadingSpaces(s)..LeadingSpaces(s) + |r|]
    ensures AllSpace(s[LeadingSpaces(s) + |r|..])
  {
    var a := LeadingSpaces(s);
    if a == |s| then []
    else
      var e := |s| - TrailingSpaces(s);
      assert a < e;
      s[a..e]
  }

  /** Where a run of `\s*` that starts at index `i` of `s` stops: the first
      index at or after `i` that holds no whitespace, or `|s|`. */
  function SkipSpaces(s: string, i: nat): (j: nat)
    requires i <= |s|
    ensures i <= j <= |s|
    ensures forall k :: i <= k < j ==> IsSpace(s[k])
    ensures j < |s| ==> !IsSpace(s[j])
    decreases |s| - i
  {
    if i < |s| && IsSpace(s[i]) then SkipSpaces(s, i + 1) else i
  }

  /** A whitespace run from `i` up to a non-whitespace character at `j` (or
      the end) is exactly what `SkipSpaces` skips. */
  lemma {:induction false} SkipSpacesTo(s: string, i: nat, j: nat)
    requires i <= j <= |s|
    requires forall k :: i <= k < j ==> IsSpace(s[k])
    requires j == |s| || !IsSpace(s[j])
    ensures SkipSpaces(s, i) == j
    decreases j - i
  {
    if i < j {
      SkipSpacesTo(s, i + 1, j);
    }
  }

  /** Text strips to nothing exactly when it is all whitespace. */
  lemma StripEmpty(s: string)
    ensures Strip(s) == [] <==> AllSpace(s)
  {
    assert AllSpace(s) ==> LeadingSpaces(s) == |s|;
  }

  /** Stripping is idempotent, and the identity on text with no outer whitespace. */
  lemma StripNoOuter(s: string)
    requires NoOuterSpace(s)
    ensures Strip(s) == s
  {
    if s != [] {
      assert LeadingSpaces(s) == 0;
      assert TrailingSpaces(s) == 0;
    }
  }

  /** The characters of `s` that are not whitespace, in order. */
  function Visible(s: string): (r: string)
    ensures |r| <= |s|
    ensures forall k :: 0 <= k < |r| ==> !IsSpace(r[k])
  {
    if s == [] then []
    else if IsSpace(s[0]) then Visible(s[1..])
    else [s[0]] + Visible(s[1..])
  }

  lemma VisibleCons(c: char, t: string)
    ensures Visible([c] + t) == (if IsSpace(c) then [] else [c]) + Visible(t)
  {
    assert ([c] + t)[1..] == t;
  }

  lemma {:induction false} VisibleAppend(x: string, y: string)
    ensures Visible(x + y) == Visible(x) + Visible(y)
    decreases |x|
  {
    if x == [] {
      assert x + y == y;
    } else {
      assert x + y == [x[0]] + (x[1..] + y);
      VisibleCons(x[0], x[1..] + y);
      VisibleAppend(x[1..], y);
      assert x == [x[0]] + x[1..];
      VisibleCons(x[0], x[1..]);
    }
  }

  lemma {:induction false} VisibleAllSpace(w: string)
    requires AllSpace(w)
    ensures Visible(w) == []
    decreases |w|
  {
    if w != [] {
      VisibleAllSpace(w[1..]);
    }
  }

  /** Stripping removes whitespace only. */
  lemma VisibleStrip(s: string)
    ensures Visible(Strip(s)) == Visible(s)
  {
    var a := LeadingSpaces(s);
    var r := Strip(s);
    var pre, post := s[..a], s[a + |r|..];
    assert s == pre + r + post by {
      assert r == s[a..a + |r|];
    }
    assert AllSpace(pre) && AllSpace(post);
    VisibleAppend(pre + r, post);
    VisibleAppend(pre, r);
    VisibleAllSpace(pre);
    VisibleAllSpace(post);
  }

  /** Index of the first occurrence of `c` in `s`, or `|s|` when there is
      none. */
  function IndexOf(s: string, c: char): (k: nat)
    ensures k <= |s|
    ensures k < |s| ==> s[k] == c
    ensures c !in s[..k]
  {
    if s == [] then 0
    else if s[0] == c then 0
    else
      assert s[1..][..IndexOf(s[1..], c)] == s[1..1 + IndexOf(s[1..], c)];
      1 + IndexOf(s[1..], c)
  }

  /** Searching a text that starts with a known prefix free of `c`. */
  lemma {:induction false} IndexOfAfter(a: string, c: char, b: string)
    requires c !in a
    ensures IndexOf(a + [c] + b, c) == |a|
  {
    if a != [] {
      assert (a + [c] + b)[1..] == a[1..] + [c] + b;
      IndexOfAfter(a[1..], c, b);
    }
  }
}
