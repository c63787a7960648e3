/** The text clean-up applied to feed titles and abstracts (`sanitize_text`)
    and the escaping of Slack link labels (`slack_escape_label`).

    Each regular-expression substitution of the source is modelled by the
    character-level scan it performs: the pattern is tried at the current
    position, a match is replaced and scanning resumes after it, otherwise one
    character is copied. HTML entity decoding is a parameter. */
module Sanitize {
  import opened Text

  // ---------------------------------------------------------------------------
  // Tags

  predicate IsB(c: char) { c == 'b' || c == 'B' }
  predicate IsR(c: char) { c == 'r' || c == 'R' }
  predicate IsP(c: char) { c == 'p' || c == 'P' }

  // Length of the match of (?i)<\s*br\s*/?\s*> at the start of s, 0 when
  // the pattern does not match there.
  function BreakTagLength(s: string): (n: nat)
    ensures n == 0 || (4 <= n <= |s| && s[0] == '<' && s[n - 1] == '>')
  {
    if s == [] || s[0] != '<' then 0
    else
      var a := SkipSpaces(s, 1);
      if a + 2 <= |s| && IsB(s[a]) && IsR(s[a + 1]) then
        var b := SkipSpaces(s, a + 2);
        var c := if b < |s| && s[b] == '/' then b + 1 else b;
        var d := SkipSpaces(s, c);
        if d < |s| && s[d] == '>' then d + 1 else 0
      else 0
  }

  /** Length of the match of `(?i)</\s*p\s*>` at the start of `s`, or 0. */
  function ParaCloseLength(s: string): (n: nat)
    ensures n == 0 || (4 <= n <= |s| && s[0] == '<' && s[1] == '/' && s[n - 1] == '>')
  {
    if |s| < 2 || s[0] != '<' || s[1] != '/' then 0
    else
      var a := SkipSpaces(s, 2);
      if a < |s| && IsP(s[a]) then
        var b := SkipSpaces(s, a + 1);
        if b < |s| && s[b] == '>' then b + 1 else 0
      else 0
  }

  /** Length of the match of `<[^>]+>` at the start of `s`, or 0: a `<`, at
      least one character, and the first `>` after it. */
  function TagLength(s: string): (n: nat)
    ensures n == 0 || (3 <= n <= |s| && s[0] == '<' && s[n - 1] == '>' && '>' !in s[1..n - 1])
  {
    if s == [] || s[0] != '<' then 0
    else
      var k := 1 + IndexOf(s[1..], '>');
      assert s[1..k] == s[1..][..k - 1];
      if 2 <= k < |s| then k + 1 else 0
  }

  // re.sub(r"(?i)<\s*br\s*/?\s*>", "\n", s)
  function ReplaceBreakTags(s: string): (r: string)
    ensures |r| <= |s|
    ensures '<' !in s ==> r == s
    decreases |s|
  {
    if s == [] then []
    else if BreakTagLength(s) > 0 then "\n" + ReplaceBreakTags(s[BreakTagLength(s)..])
    else [s[0]] + ReplaceBreakTags(s[1..])
  }

  /** `re.sub(r"(?i)</\s*p\s*>", "\n", s)` */
  function ReplaceParaCloseTags(s: string): (r: string)
    ensures |r| <= |s|
    ensures '<' !in s ==> r == s
    decreases |s|
  {
    if s == [] then []
    else if ParaCloseLength(s) > 0 then "\n" + ReplaceParaCloseTags(s[ParaCloseLength(s)..])
    else [s[0]] + ReplaceParaCloseTags(s[1..])
  }

  /** `re.sub(r"<[^>]+>", "", s)` */
  function StripTags(s: string): (r: string)
    ensures |r| <= |s|
    ensures '<' !in s ==> r == s
    ensures '>' !in s ==> r == s
    decreases |s|
  {
    if s == [] then []
    else if TagLength(s) > 0 then StripTags(s[TagLength(s)..])
    else [s[0]] + StripTags(s[1..])
  }

  /** A scan that copies every character `stop` rejects and moves on to the
      next copies a prefix made of such characters unchanged. */
  lemma {:induction false} CopiesPrefix(f: string -> string, stop: char -> bool, a: string, b: string)
    requires forall s :: s != [] && !stop(s[0]) ==> f(s) == [s[0]] + f(s[1..])
    requires forall k :: 0 <= k < |a| ==> !stop(a[k])
    ensures f(a + b) == a + f(b)
    decreases |a|
  {
    if a == [] {
      assert a + b == b;
    } else {
      var s := a + b;
      assert s[0] == a[0] && s[1..] == a[1..] + b;
      CopiesPrefix(f, stop, a[1..], b);
      assert a == [a[0]] + a[1..];
    }
  }

  /** Text before the first `<` is copied unchanged by the break-tag
      substitution. */
  lemma ReplaceBreakTagsKeeps(a: string, b: string)
    requires '<' !in a
    ensures ReplaceBreakTags(a + b) == a + ReplaceBreakTags(b)
  {
    forall s | s != [] && s[0] != '<'
      ensures ReplaceBreakTags(s) == [s[0]] + ReplaceBreakTags(s[1..])
    {
      assert BreakTagLength(s) == 0;
    }
    CopiesPrefix(ReplaceBreakTags, c => c == '<', a, b);
  }

  /** The break-tag match read off from where its parts end: the spaces
      after `<` end at `a`, those after `br` at `e`, and the closing `>`
      sits at `d`, right after those or after a `/` and more spaces. */
  lemma BreakTagLengthAt(s: string, a: nat, e: nat, d: nat)
    requires |s| > 0 && s[0] == '<' && a == SkipSpaces(s, 1)
    requires a + 2 <= |s| && IsB(s[a]) && IsR(s[a + 1])
    requires e == SkipSpaces(s, a + 2) && d < |s| && s[d] == '>'
    requires d == e || (e < |s| && s[e] == '/' && d == SkipSpaces(s, e + 1))
    ensures BreakTagLength(s) == d + 1
  {
    if d == e {
      assert SkipSpaces(s, e) == e;
    }
  }

  /** A line-break tag without `/` (`<br>`, `< BR >`, ...) is matched in
      full. */
  lemma PlainBreakTagMatch(w1: string, b: char, r: char, w2: string, rest: string)
    requires AllSpace(w1) && AllSpace(w2) && IsB(b) && IsR(r)
    ensures BreakTagLength("<" + w1 + [b, r] + w2 + ">" + rest) == |w1| + |w2| + 4
  {
    var s := "<" + w1 + [b, r] + w2 + ">" + rest;
    var a := 1 + |w1|;
    var d := a + 2 + |w2|;
    assert forall k :: 1 <= k < a ==> s[k] == w1[k - 1];
    assert s[a] == b && s[a + 1] == r;
    assert forall k :: a + 2 <= k < d ==> s[k] == w2[k - a - 2];
    assert s[d] == '>';
    SkipSpacesTo(s, 1, a);
    SkipSpacesTo(s, a + 2, d);
    BreakTagLengthAt(s, a, d, d);
  }

  /** A self-closing line-break tag (`<br/>`, `< br / >`, ...) is matched
      in full. */
  lemma SelfClosingBreakTagMatch(w1: string, b: char, r: char, w2: string, w3: string, rest: string)
    requires AllSpace(w1) && AllSpace(w2) && AllSpace(w3) && IsB(b) && IsR(r)
    ensures BreakTagLength("<" + w1 + [b, r] + w2 + "/" + w3 + ">" + rest) == |w1| + |w2| + |w3| + 5
  {
    var s := "<" + w1 + [b, r] + w2 + "/" + w3 + ">" + rest;
    var a := 1 + |w1|;
    var e := a + 2 + |w2|;
    var d := e + 1 + |w3|;
    assert forall k :: 1 <= k < a ==> s[k] == w1[k - 1];
    assert s[a] == b && s[a + 1] == r;
    assert forall k :: a + 2 <= k < e ==> s[k] == w2[k - a - 2];
    assert s[e] == '/';
    assert forall k :: e + 1 <= k < d ==> s[k] == w3[k - e - 1];
    assert s[d] == '>';
    SkipSpacesTo(s, 1, a);
    SkipSpacesTo(s, a + 2, e);
    SkipSpacesTo(s, e + 1, d);
    BreakTagLengthAt(s, a, e, d);
  }

  /** A line-break tag in any of the forms the pattern allows (`<br>`,
      `<BR/>`, `< br / >`, ...) becomes one newline. */
  lemma BreakTagReplaced(w1: string, b: char, r: char, w2: string, slash: bool, w3: string, rest: string)
    requires AllSpace(w1) && AllSpace(w2) && AllSpace(w3)
    requires IsB(b) && IsR(r)
    ensures ReplaceBreakTags("<" + w1 + [b, r] + w2 + (if slash then "/" else "") + w3 + ">" + rest)
            == "\n" + ReplaceBreakTags(rest)
  {
    var s := "<" + w1 + [b, r] + w2 + (if slash then "/" else "") + w3 + ">" + rest;
    var n := |w1| + |w2| + |w3| + (if slash then 5 else 4);
    if slash {
      SelfClosingBreakTagMatch(w1, b, r, w2, w3, rest);
    } else {
      assert s == "<" + w1 + [b, r] + (w2 + w3) + ">" + rest;
      assert AllSpace(w2 + w3);
      PlainBreakTagMatch(w1, b, r, w2 + w3, rest);
    }
    assert s[n..] == rest;
  }

  /** Text before the first `<` is copied unchanged by the paragraph-end
      substitution. */
  lemma ReplaceParaCloseTagsKeeps(a: string, b: string)
    requires '<' !in a
    ensures ReplaceParaCloseTags(a + b) == a + ReplaceParaCloseTags(b)
  {
    forall s | s != [] && s[0] != '<'
      ensures ReplaceParaCloseTags(s) == [s[0]] + ReplaceParaCloseTags(s[1..])
    {
      assert ParaCloseLength(s) == 0;
    }
    CopiesPrefix(ReplaceParaCloseTags, c => c == '<', a, b);
  }

  /** A paragraph end in any of the forms the pattern allows (`</p>`, `</P >`,
      `</ p>`, ...) becomes one newline. */
  lemma ParaCloseReplaced(w1: string, p: char, w2: string, rest: string)
    requires AllSpace(w1) && AllSpace(w2) && IsP(p)
    ensures ReplaceParaCloseTags("</" + w1 + [p] + w2 + ">" + rest) == "\n" + ReplaceParaCloseTags(rest)
  {
    var tag := "</" + w1 + [p] + w2 + ">";
    var s := tag + rest;
    var a := 2 + |w1|;
    var e := a + 1 + |w2|;
    assert |tag| == e + 1;
    assert forall k :: 2 <= k < a ==> s[k] == w1[k - 2];
    assert s[a] == p;
    assert forall k :: a + 1 <= k < e ==> s[k] == w2[k - a - 1];
    assert s[e] == '>';
    SkipSpacesTo(s, 2, a);
    SkipSpacesTo(s, a + 1, e);
    assert ParaCloseLength(s) == |tag|;
    assert s[|tag|..] == rest;
  }

  /** Text before the first `<` is copied unchanged by tag removal. */
  lemma StripTagsKeeps(a: string, b: string)
    requires '<' !in a
    ensures StripTags(a + b) == a + StripTags(b)
  {
    forall s | s != [] && s[0] != '<'
      ensures StripTags(s) == [s[0]] + StripTags(s[1..])
    {
      assert TagLength(s) == 0;
    }
    CopiesPrefix(StripTags, c => c == '<', a, b);
  }

  /** A tag, a `<` with at least one character before the first `>` that
      closes it, is removed. */
  lemma TagRemoved(t: string, rest: string)
    requires |t| >= 3 && t[0] == '<' && t[|t| - 1] == '>' && '>' !in t[1..|t| - 1]
    ensures StripTags(t + rest) == StripTags(rest)
  {
    var s := t + rest;
    assert s[1..] == t[1..|t| - 1] + ['>'] + rest;
    IndexOfAfter(t[1..|t| - 1], '>', rest);
    assert TagLength(s) == |t|;
    assert s[|t|..] == rest;
  }

  /** No match of `<[^>]+>` starts anywhere in `s`. */
  predicate NoTag(s: string) {
    forall i :: 0 <= i < |s| ==> TagLength(s[i..]) == 0
  }

  /** Tag removal leaves no tag: every `<` it keeps is followed by `>` at
      once, or by no `>` at all. */
  lemma {:induction false} StripTagsNoTag(s: string)
    ensures NoTag(StripTags(s))
    decreases |s|
  {
    if s == [] {
    } else if TagLength(s) > 0 {
      StripTagsNoTag(s[TagLength(s)..]);
    } else {
      var rest := StripTags(s[1..]);
      StripTagsNoTag(s[1..]);
      assert StripTags(s) == [s[0]] + rest;
      if s[0] == '<' {
        KeptOpenerNoTag(s);
      }
      NoTagCons(s[0], rest);
    }
  }

  /** A `<` that tag removal keeps starts no tag in the output: it is
      followed by `>` at once, or by no `>` at all. */
  lemma KeptOpenerNoTag(s: string)
    requires s != [] && s[0] == '<' && TagLength(s) == 0
    ensures TagLength([s[0]] + StripTags(s[1..])) == 0
  {
    var rest := StripTags(s[1..]);
    var r := [s[0]] + rest;
    assert r[1..] == rest;
    if |s| >= 2 && s[1] == '>' {
      assert s[1..][1..] == s[2..];
      assert rest == ['>'] + StripTags(s[2..]);
    } else {
      assert IndexOf(s[1..], '>') == |s[1..]|;
      assert s[1..][..|s[1..]|] == s[1..];
      assert rest == s[1..];
    }
  }

  /** A character put in front of a tag-free text leaves it tag-free when it
      starts no tag itself. */
  lemma NoTagCons(c: char, rest: string)
    requires NoTag(rest)
    requires c == '<' ==> TagLength([c] + rest) == 0
    ensures NoTag([c] + rest)
  {
    var r := [c] + rest;
    forall i | 0 <= i < |r| ensures TagLength(r[i..]) == 0 {
      if i > 0 {
        assert r[i..] == rest[i - 1..];
      }
    }
  }

  // ---------------------------------------------------------------------------
  // Line endings and runs

  /** `s.replace(from, to)` for single characters. */
  function ReplaceChar(s: string, from: char, to: char): (r: string)
    ensures |r| == |s|
    ensures forall i :: 0 <= i < |s| ==> r[i] == if s[i] == from then to else s[i]
  {
    if s == [] then []
    else
      var rest := ReplaceChar(s[1..], from, to);
      assert forall i :: 1 <= i < |s| ==> s[i] == s[1..][i - 1];
      [if s[0] == from then to else s[0]] + rest
  }

  /** `s.replace("\r\n", "\n")` */
  function ReplaceCrLf(s: string): (r: string)
    ensures |r| <= |s|
    ensures '\r' !in s ==> r == s
    decreases |s|
  {
    if s == [] then []
    else if |s| >= 2 && s[0] == '\r' && s[1] == '\n' then "\n" + ReplaceCrLf(s[2..])
    else [s[0]] + ReplaceCrLf(s[1..])
  }

  /** `s.replace("\r\n", "\n").replace("\r", "\n")` */
  function NormalizeLineEndings(s: string): (r: string)
    ensures '\r' !in r
    ensures '\r' !in s ==> r == s
    ensures forall c :: c in r ==> c in s || c == '\n'
  {
    var t := ReplaceCrLf(s);
    CrLfChars(s);
    ReplaceChar(t, '\r', '\n')
  }

  lemma {:induction false} CrLfChars(s: string)
    ensures forall c :: c in ReplaceCrLf(s) ==> c in s
    decreases |s|
  {
    if s != [] {
      if |s| >= 2 && s[0] == '\r' && s[1] == '\n' {
        CrLfChars(s[2..]);
      } else {
        CrLfChars(s[1..]);
      }
    }
  }

  /** Length of the run of `'\n'` that starts `s`. */
  function NewlineRun(s: string): (n: nat)
    ensures n <= |s|
    ensures forall k :: 0 <= k < n ==> s[k] == '\n'
    ensures n < |s| ==> s[n] != '\n'
  {
    if s != [] && s[0] == '\n' then 1 + NewlineRun(s[1..]) else 0
  }

  /** `re.sub(r"\n{3,}", "\n\n", s)`: a run of three or more newlines becomes two. */
  function CollapseNewlines(s: string): (r: string)
    ensures s != [] ==> r != [] && (r[0] == '\n' <==> s[0] == '\n')
    decreases |s|
  {
    if s == [] then []
    else if s[0] == '\n' then
      var n := NewlineRun(s);
      (if n >= 3 then "\n\n" else s[..n]) + CollapseNewlines(s[n..])
    else [s[0]] + CollapseNewlines(s[1..])
  }

  predicate IsBlank(c: char) { c == ' ' || c == '\t' }

  /** Length of the run of spaces and tabs that starts `s`. */
  function BlankRun(s: string): (n: nat)
    ensures n <= |s|
    ensures forall k :: 0 <= k < n ==> IsBlank(s[k])
    ensures n < |s| ==> !IsBlank(s[n])
  {
    if s != [] && IsBlank(s[0]) then 1 + BlankRun(s[1..]) else 0
  }

  /** `re.sub(r"[ \t]+", " ", s)`: every run of spaces and tabs becomes one space. */
  function CollapseBlanks(s: string): (r: string)
    ensures s != [] ==> r != [] && r[0] == (if IsBlank(s[0]) then ' ' else s[0])
    decreases |s|
  {
    if s == [] then []
    else if IsBlank(s[0]) then " " + CollapseBlanks(s[BlankRun(s)..])
    else [s[0]] + CollapseBlanks(s[1..])
  }

  /** `ReplaceChar` works character by character, so it distributes over
      concatenation. */
  lemma ReplaceCharAppend(x: string, y: string, from: char, to: char)
    ensures ReplaceChar(x + y, from, to) == ReplaceChar(x, from, to) + ReplaceChar(y, from, to)
  {
    var r := ReplaceChar(x + y, from, to);
    var q := ReplaceChar(x, from, to) + ReplaceChar(y, from, to);
    assert |r| == |q|;
    forall i | 0 <= i < |r| ensures r[i] == q[i] {
      if i < |x| {
        assert (x + y)[i] == x[i];
      } else {
        assert (x + y)[i] == y[i - |x|];
      }
    }
  }

  /** Text before the first `\r` is copied unchanged by the CRLF rewrite. */
  lemma ReplaceCrLfKeeps(a: string, b: string)
    requires '\r' !in a
    ensures ReplaceCrLf(a + b) == a + ReplaceCrLf(b)
  {
    forall s | s != [] && s[0] != '\r'
      ensures ReplaceCrLf(s) == [s[0]] + ReplaceCrLf(s[1..])
    {
    }
    CopiesPrefix(ReplaceCrLf, c => c == '\r', a, b);
  }

  /** Line-ending normalisation copies text before the first `\r`. */
  lemma LineEndingsKeep(a: string, b: string)
    requires '\r' !in a
    ensures NormalizeLineEndings(a + b) == a + NormalizeLineEndings(b)
  {
    ReplaceCrLfKeeps(a, b);
    ReplaceCharAppend(a, ReplaceCrLf(b), '\r', '\n');
  }

  /** A CRLF pair becomes one `\n`. */
  lemma LineEndingsCrLf(b: string)
    ensures NormalizeLineEndings("\r\n" + b) == "\n" + NormalizeLineEndings(b)
  {
    assert ("\r\n" + b)[2..] == b;
    assert ReplaceCrLf("\r\n" + b) == "\n" + ReplaceCrLf(b);
    ReplaceCharAppend("\n", ReplaceCrLf(b), '\r', '\n');
  }

  /** A `\r` not followed by `\n` becomes one `\n` too. */
  lemma LineEndingsCr(b: string)
    requires b == [] || b[0] != '\n'
    ensures NormalizeLineEndings("\r" + b) == "\n" + NormalizeLineEndings(b)
  {
    assert ("\r" + b)[1..] == b;
    assert ReplaceCrLf("\r" + b) == "\r" + ReplaceCrLf(b);
    ReplaceCharAppend("\r", ReplaceCrLf(b), '\r', '\n');
  }

  /** Newline collapsing copies text before the first `\n`. */
  lemma CollapseNewlinesKeep(a: string, b: string)
    requires '\n' !in a
    ensures CollapseNewlines(a + b) == a + CollapseNewlines(b)
  {
    forall s | s != [] && s[0] != '\n'
      ensures CollapseNewlines(s) == [s[0]] + CollapseNewlines(s[1..])
    {
    }
    CopiesPrefix(CollapseNewlines, c => c == '\n', a, b);
  }

  /** A whole run of newlines is kept when it has one or two, and becomes
      two when it has three or more. */
  lemma CollapseNewlinesRun(w: string, b: string)
    requires w != [] && forall k :: 0 <= k < |w| ==> w[k] == '\n'
    requires b == [] || b[0] != '\n'
    ensures CollapseNewlines(w + b) == (if |w| >= 3 then "\n\n" else w) + CollapseNewlines(b)
  {
    var s := w + b;
    var n := NewlineRun(s);
    if n > |w| {
      assert s[|w|] == b[0];
    }
    assert s[..n] == w && s[n..] == b;
  }

  /** Blank collapsing copies text before the first space or tab. */
  lemma CollapseBlanksKeep(a: string, b: string)
    requires forall k :: 0 <= k < |a| ==> !IsBlank(a[k])
    ensures CollapseBlanks(a + b) == a + CollapseBlanks(b)
  {
    forall s | s != [] && !IsBlank(s[0])
      ensures CollapseBlanks(s) == [s[0]] + CollapseBlanks(s[1..])
    {
    }
    CopiesPrefix(CollapseBlanks, IsBlank, a, b);
  }

  /** A whole run of spaces and tabs becomes exactly one space. */
  lemma CollapseBlanksRun(w: string, b: string)
    requires w != [] && forall k :: 0 <= k < |w| ==> IsBlank(w[k])
    requires b == [] || !IsBlank(b[0])
    ensures CollapseBlanks(w + b) == " " + CollapseBlanks(b)
  {
    var s := w + b;
    var n := BlankRun(s);
    if n > |w| {
      assert s[|w|] == b[0];
    }
    assert s[n..] == b;
  }

  /** The CRLF rewrite only turns whitespace into whitespace. */
  lemma {:induction false} VisibleReplaceCrLf(s: string)
    ensures Visible(ReplaceCrLf(s)) == Visible(s)
    decreases |s|
  {
    if s == [] {
    } else if |s| >= 2 && s[0] == '\r' && s[1] == '\n' {
      VisibleReplaceCrLf(s[2..]);
      VisibleCrLfPair(s);
    } else {
      VisibleReplaceCrLf(s[1..]);
      VisibleCons(s[0], ReplaceCrLf(s[1..]));
      assert s == [s[0]] + s[1..];
      VisibleCons(s[0], s[1..]);
    }
  }

  /** One CRLF pair: whitespace in, whitespace out. */
  lemma VisibleCrLfPair(s: string)
    requires |s| >= 2 && s[0] == '\r' && s[1] == '\n'
    ensures Visible(ReplaceCrLf(s)) == Visible(ReplaceCrLf(s[2..]))
    ensures Visible(s) == Visible(s[2..])
  {
    assert ReplaceCrLf(s) == "\n" + ReplaceCrLf(s[2..]);
    VisibleCons('\n', ReplaceCrLf(s[2..]));
    assert Visible(s) == Visible(s[1..]);
    assert s[1..][1..] == s[2..];
  }

  /** Turning `\r` into `\n` only turns whitespace into whitespace. */
  lemma {:induction false} VisibleReplaceCr(s: string)
    ensures Visible(ReplaceChar(s, '\r', '\n')) == Visible(s)
    decreases |s|
  {
    if s != [] {
      var c := if s[0] == '\r' then '\n' else s[0];
      var rest := ReplaceChar(s[1..], '\r', '\n');
      assert ReplaceChar(s, '\r', '\n') == [c] + rest;
      VisibleReplaceCr(s[1..]);
      VisibleCons(c, rest);
      assert s == [s[0]] + s[1..];
      VisibleCons(s[0], s[1..]);
    }
  }

  /** Line-ending normalisation keeps every non-whitespace character, in order. */
  lemma VisibleLineEndings(s: string)
    ensures Visible(NormalizeLineEndings(s)) == Visible(s)
  {
    VisibleReplaceCrLf(s);
    VisibleReplaceCr(ReplaceCrLf(s));
  }

  /** A leading run of newlines, collapsed or not, holds nothing visible. */
  lemma VisibleNewlineRun(s: string)
    requires s != [] && s[0] == '\n'
    ensures Visible(CollapseNewlines(s)) == Visible(CollapseNewlines(s[NewlineRun(s)..]))
    ensures Visible(s) == Visible(s[NewlineRun(s)..])
  {
    var n := NewlineRun(s);
    var run, tail := s[..n], s[n..];
    assert s == run + tail;
    assert AllSpace(run);
    var head := if n >= 3 then "\n\n" else run;
    assert CollapseNewlines(s) == head + CollapseNewlines(tail);
    VisibleAllSpace(run);
    VisibleAllSpace(head);
    VisibleAppend(head, CollapseNewlines(tail));
    VisibleAppend(run, tail);
  }

  /** Newline collapsing keeps every non-whitespace character, in order. */
  lemma {:induction false} VisibleCollapseNewlines(s: string)
    ensures Visible(CollapseNewlines(s)) == Visible(s)
    decreases |s|
  {
    if s == [] {
    } else if s[0] == '\n' {
      VisibleNewlineRun(s);
      VisibleCollapseNewlines(s[NewlineRun(s)..]);
    } else {
      VisibleCollapseNewlines(s[1..]);
      VisibleCons(s[0], CollapseNewlines(s[1..]));
      assert s == [s[0]] + s[1..];
      VisibleCons(s[0], s[1..]);
    }
  }

  /** Blank collapsing keeps every non-whitespace character, in order. */
  lemma {:induction false} VisibleCollapseBlanks(s: string)
    ensures Visible(CollapseBlanks(s)) == Visible(s)
    decreases |s|
  {
    if s == [] {
    } else if IsBlank(s[0]) {
      var n := BlankRun(s);
      VisibleCollapseBlanks(s[n..]);
      VisibleCons(' ', CollapseBlanks(s[n..]));
      assert s == s[..n] + s[n..];
      VisibleAppend(s[..n], s[n..]);
      VisibleAllSpace(s[..n]);
    } else {
      VisibleCollapseBlanks(s[1..]);
      VisibleCons(s[0], CollapseBlanks(s[1..]));
      assert s == [s[0]] + s[1..];
      VisibleCons(s[0], s[1..]);
    }
  }

  // ---------------------------------------------------------------------------
  // What the sanitiser guarantees

  /** Three newlines start at position `i`. */
  predicate TripleNewlineAt(s: string, i: nat)
    requires i + 2 < |s|
  {
    s[i] == '\n' && s[i + 1] == '\n' && s[i + 2] == '\n'
  }

  /** Two spaces start at position `i`. */
  predicate DoubleSpaceAt(s: string, i: nat)
    requires i + 1 < |s|
  {
    s[i] == ' ' && s[i + 1] == ' '
  }

  predicate NoTripleNewline(s: string) {
    forall i: nat :: i + 2 < |s| ==> !TripleNewlineAt(s, i)
  }

  predicate NoDoubleSpace(s: string) {
    forall i: nat :: i + 1 < |s| ==> !DoubleSpaceAt(s, i)
  }

  /** The shape of every sanitised text. */
  predicate Clean(s: string) {
    && NoOuterSpace(s)
    && '\r' !in s
    && '\t' !in s
    && NoDoubleSpace(s)
    && NoTripleNewline(s)
  }

  /** Collapsing newlines never introduces a character, and leaves no run of three. */
  lemma {:induction false} CollapseNewlinesSound(s: string)
    ensures forall c :: c in CollapseNewlines(s) ==> c in s
    ensures NoTripleNewline(CollapseNewlines(s))
    decreases |s|
  {
    if s == [] {
    } else if s[0] == '\n' {
      var n := NewlineRun(s);
      var head := if n >= 3 then "\n\n" else s[..n];
      var rest := CollapseNewlines(s[n..]);
      CollapseNewlinesSound(s[n..]);
      assert forall k :: 0 <= k < |head| ==> head[k] == '\n';
      NoTripleNewlineJoin(head, rest);
      forall c | c in head + rest ensures c in s {
        if c in head { assert s[0] == '\n'; }
      }
    } else {
      CollapseNewlinesSound(s[1..]);
      NoTripleNewlineJoin([s[0]], CollapseNewlines(s[1..]));
    }
  }

  /** Joining a text free of runs of three newlines onto at most two
      characters, newlines only when the text starts with something else,
      makes no run of three. */
  lemma NoTripleNewlineJoin(head: string, rest: string)
    requires |head| <= 2 && NoTripleNewline(rest)
    requires (forall k :: 0 <= k < |head| ==> head[k] == '\n') || (|head| == 1 && head[0] != '\n')
    requires head != [] && head[0] == '\n' ==> rest == [] || rest[0] != '\n'
    ensures NoTripleNewline(head + rest)
  {
    var r := head + rest;
    forall i: nat | i + 2 < |r|
      ensures !TripleNewlineAt(r, i)
    {
      if i >= |head| {
        assert !TripleNewlineAt(rest, i - |head|);
        assert r[i] == rest[i - |head|] && r[i + 1] == rest[i - |head| + 1] && r[i + 2] == rest[i - |head| + 2];
      } else if head[0] == '\n' {
        assert r[|head|] == rest[0];
      }
    }
  }

  /** Collapsing blanks removes every tab and introduces nothing but spaces. */
  lemma {:induction false} CollapseBlanksChars(s: string)
    ensures forall c :: c in CollapseBlanks(s) ==> (c in s && c != '\t') || c == ' '
    decreases |s|
  {
    if s != [] {
      if IsBlank(s[0]) {
        CollapseBlanksChars(s[BlankRun(s)..]);
      } else {
        CollapseBlanksChars(s[1..]);
      }
    }
  }

  /** After collapsing blanks no two spaces are adjacent. */
  lemma {:induction false} CollapseBlanksNoDoubleSpace(s: string)
    ensures NoDoubleSpace(CollapseBlanks(s))
    decreases |s|
  {
    if s == [] {
    } else if IsBlank(s[0]) {
      var n := BlankRun(s);
      CollapseBlanksNoDoubleSpace(s[n..]);
      if s[n..] != [] {
        assert !IsBlank(s[n..][0]);
      }
      NoDoubleSpaceCons(' ', CollapseBlanks(s[n..]));
    } else {
      CollapseBlanksNoDoubleSpace(s[1..]);
      NoDoubleSpaceCons(s[0], CollapseBlanks(s[1..]));
    }
  }

  /** A character put in front keeps a text free of double spaces unless
      both it and the text's first character are spaces. */
  lemma NoDoubleSpaceCons(c: char, rest: string)
    requires NoDoubleSpace(rest)
    requires c != ' ' || rest == [] || rest[0] != ' '
    ensures NoDoubleSpace([c] + rest)
  {
    var r := [c] + rest;
    forall i: nat | i + 1 < |r| ensures !DoubleSpaceAt(r, i) {
      if i == 0 {
        assert r[1] == rest[0];
      } else {
        assert !DoubleSpaceAt(rest, i - 1);
        assert r[i] == rest[i - 1] && r[i + 1] == rest[i];
      }
    }
  }

  lemma NoTripleNewlineSuffix(s: string, n: nat)
    requires n <= |s| && NoTripleNewline(s)
    ensures NoTripleNewline(s[n..])
  {
    var t := s[n..];
    forall i: nat | i + 2 < |t|
      ensures !TripleNewlineAt(t, i)
    {
      assert !TripleNewlineAt(s, n + i);
      assert t[i] == s[n + i] && t[i + 1] == s[n + i + 1] && t[i + 2] == s[n + i + 2];
    }
  }

  /** Collapsing blanks never joins newlines into a run of three: a blank run
      becomes a space, which separates the newlines around it. */
  lemma {:induction false} CollapseBlanksNoTriple(s: string)
    requires NoTripleNewline(s)
    ensures NoTripleNewline(CollapseBlanks(s))
    decreases |s|
  {
    if s != [] {
      var n := if IsBlank(s[0]) then BlankRun(s) else 1;
      NoTripleNewlineSuffix(s, n);
      CollapseBlanksNoTriple(s[n..]);
      var rest := CollapseBlanks(s[n..]);
      var r := CollapseBlanks(s);
      assert r == [r[0]] + rest;
      forall i: nat | i + 2 < |r|
        ensures !TripleNewlineAt(r, i)
      {
        if i >= 1 {
          assert !TripleNewlineAt(rest, i - 1);
          assert r[i] == rest[i - 1] && r[i + 1] == rest[i] && r[i + 2] == rest[i + 1];
        } else if r[0] == '\n' && r[1] == '\n' {
          // rest starts with a newline, so s[1] is one and rest is "\n" + CollapseBlanks(s[2..])
          assert s[0] == '\n' && s[1] == '\n';
          assert rest == [rest[0]] + CollapseBlanks(s[2..]);
          assert s[2..] != [];
          assert r[2] == CollapseBlanks(s[2..])[0];
          assert !TripleNewlineAt(s, 0);
        }
      }
    }
  }

  /** A slice keeps every property of `Clean` but the outer whitespace. */
  lemma SliceKeepsInner(s: string, a: nat, b: nat)
    requires a <= b <= |s|
    requires '\r' !in s && '\t' !in s && NoDoubleSpace(s) && NoTripleNewline(s)
    ensures '\r' !in s[a..b] && '\t' !in s[a..b]
    ensures NoDoubleSpace(s[a..b]) && NoTripleNewline(s[a..b])
  {
    var t := s[a..b];
    forall i: nat | i + 1 < |t| ensures !DoubleSpaceAt(t, i) {
      assert !DoubleSpaceAt(s, a + i);
      assert t[i] == s[a + i] && t[i + 1] == s[a + i + 1];
    }
    forall i: nat | i + 2 < |t|
      ensures !TripleNewlineAt(t, i)
    {
      assert !TripleNewlineAt(s, a + i);
      assert t[i] == s[a + i] && t[i + 1] == s[a + i + 1] && t[i + 2] == s[a + i + 2];
    }
  }

  /** Stripping a text free of carriage returns, tabs, double spaces and
      newline triples gives a clean text. */
  lemma StripClean(s: string)
    requires '\r' !in s && '\t' !in s && NoDoubleSpace(s) && NoTripleNewline(s)
    ensures Clean(Strip(s))
  {
    var r := Strip(s);
    var a := LeadingSpaces(s);
    var t := s[a..a + |r|];
    SliceKeepsInner(s, a, a + |r|);
    assert r == t;
    assert '\r' !in r && '\t' !in r;
    assert NoDoubleSpace(r) && NoTripleNewline(r);
  }

  /** The last three steps of the sanitiser produce a clean text from any text
      without carriage returns. */
  lemma CollapseAndStripClean(lines: string)
    requires '\r' !in lines
    ensures Clean(Strip(CollapseBlanks(CollapseNewlines(lines))))
  {
    var collapsed := CollapseNewlines(lines);
    CollapseNewlinesSound(lines);
    assert '\r' !in collapsed;
    var blanked := CollapseBlanks(collapsed);
    CollapseBlanksChars(collapsed);
    assert '\r' !in blanked && '\t' !in blanked;
    CollapseBlanksNoDoubleSpace(collapsed);
    CollapseBlanksNoTriple(collapsed);
    StripClean(blanked);
  }

  /** `sanitize_text`: empty text stays empty; otherwise entities are decoded
      (`unescape` stands for `html.unescape`), line breaks and paragraph ends
      become newlines, other tags are removed, line endings are normalised,
      newline and blank runs are collapsed and the result is stripped. */
  function SanitizeText(unescape: string -> string, text: string): (r: string)
    ensures text == "" ==> r == ""
    ensures Clean(r)
  {
    if text == "" then ""
    else
      var untagged := StripTags(ReplaceParaCloseTags(ReplaceBreakTags(unescape(text))));
      var lines := NormalizeLineEndings(untagged);
      CollapseAndStripClean(lines);
      Strip(CollapseBlanks(CollapseNewlines(lines)))
  }

  /** On decoded text without markup, sanitising changes whitespace only:
      the non-whitespace characters come out unchanged and in order. */
  lemma SanitizeKeepsVisible(unescape: string -> string, text: string)
    requires text != "" && '<' !in unescape(text)
    ensures Visible(SanitizeText(unescape, text)) == Visible(unescape(text))
  {
    var decoded := unescape(text);
    assert StripTags(ReplaceParaCloseTags(ReplaceBreakTags(decoded))) == decoded;
    var lines := NormalizeLineEndings(decoded);
    VisibleLineEndings(decoded);
    VisibleCollapseNewlines(lines);
    VisibleCollapseBlanks(CollapseNewlines(lines));
    VisibleStrip(CollapseBlanks(CollapseNewlines(lines)));
  }

  // ---------------------------------------------------------------------------
  // Slack link labels

  /** A one-for-one replacement that puts whitespace exactly where the text
      had whitespace, and changes no character other than `|`, `<` and `>`,
      keeps a clean text clean. */
  lemma EscapeKeepsClean(text: string, r: string)
    requires |r| == |text|
    requires forall i :: 0 <= i < |r| ==> (IsSpace(r[i]) <==> IsSpace(text[i]))
    requires forall i :: 0 <= i < |r| ==> (r[i] == text[i] || text[i] in "|<>")
    ensures Clean(text) ==> Clean(r)
  {
    if Clean(text) {
      forall i: nat | i + 1 < |r| ensures !DoubleSpaceAt(r, i) {
        assert !DoubleSpaceAt(text, i);
      }
      forall i: nat | i + 2 < |r| ensures !TripleNewlineAt(r, i) {
        assert !TripleNewlineAt(text, i);
      }
      assert '\r' !in r by {
        forall i | 0 <= i < |r| ensures r[i] != '\r' { assert text[i] != '\r'; }
      }
      assert '\t' !in r by {
        forall i | 0 <= i < |r| ensures r[i] != '\t' { assert text[i] != '\t'; }
      }
    }
  }

  const BrokenBar: char := '\U{A6}'
  const SingleRightAngle: char := '\U{203A}'
  const SingleLeftAngle: char := '\U{2039}'

  /** `slack_escape_label`: `|`, `>` and `<` are replaced one for one by
      look-alikes that carry no meaning in Slack's link syntax. */
  function SlackEscapeLabel(text: string): (r: string)
    ensures |r| == |text|
    ensures '|' !in r && '<' !in r && '>' !in r
    ensures forall i :: 0 <= i < |text| ==>
              r[i] == match text[i]
                      case '|' => BrokenBar
                      case '>' => SingleRightAngle
                      case '<' => SingleLeftAngle
                      case _ => text[i]
    ensures Clean(text) ==> Clean(r)
  {
    if text == "" then ""
    else
      var r := ReplaceChar(ReplaceChar(ReplaceChar(text, '|', BrokenBar), '>', SingleRightAngle), '<', SingleLeftAngle);
      assert forall i :: 0 <= i < |r| ==> (IsSpace(r[i]) <==> IsSpace(text[i]));
      assert forall i :: 0 <= i < |r| ==> (r[i] == text[i] || text[i] in "|<>");
      EscapeKeepsClean(text, r);
      r
  }
}
