/**
 * The JavaScript string built-ins the background script relies on:
 * `trim`, `startsWith`, `endsWith`, `split` on one character and
 * `split` on a regular expression that matches runs of one character.
 */
module Strings {

  import opened Seqs

  /** WhiteSpace and LineTerminator code points: the characters `String.prototype.trim` removes. */
  const WhitespaceChars: seq<char> := [
    ' ', '\t', '\n', '\r', '\U{B}', '\U{C}', '\U{A0}', '\U{1680}',
    '\U{2000}', '\U{2001}', '\U{2002}', '\U{2003}', '\U{2004}', '\U{2005}',
    '\U{2006}', '\U{2007}', '\U{2008}', '\U{2009}', '\U{200A}',
    '\U{2028}', '\U{2029}', '\U{202F}', '\U{205F}', '\U{3000}', '\U{FEFF}'
  ]

  /** Whether `c` is one of `chars`, looked up one by one. */
  predicate OneOf(c: char, chars: seq<char>)
  {
    chars != [] && (chars[0] == c || OneOf(c, chars[1..]))
  }

  predicate IsWhitespace(c: char)
  {
    OneOf(c, WhitespaceChars)
  }

  lemma {:induction false} NotOneOf(c: char, chars: seq<char>)
    requires c !in chars
    ensures !OneOf(c, chars)
  {
    if chars != [] {
      assert chars == [chars[0]] + chars[1..];
      NotOneOf(c, chars[1..]);
    }
  }

  /** A lower-case ASCII letter is not white space. */
  lemma LetterIsNotWhitespace(c: char)
    requires 'a' <= c <= 'z'
    ensures !IsWhitespace(c)
  {
    NotOneOf(c, WhitespaceChars);
  }

  /** Every character is white space (the empty string included). */
  predicate IsBlank(s: string)
  {
    forall i :: 0 <= i < |s| ==> IsWhitespace(s[i])
  }

  predicate IsNotBlank(s: string)
  {
    !IsBlank(s)
  }

  function TrimStart(s: string): (r: string)
    ensures |r| <= |s| && r == s[|s| - |r|..]
    ensures IsBlank(s[..|s| - |r|])
    ensures r == [] || !IsWhitespace(r[0])
  {
    if |s| > 0 && IsWhitespace(s[0]) then
      var rest := TrimStart(s[1..]);
      assert s[..|s| - |rest|] == [s[0]] + s[1..][..|s| - 1 - |rest|];
      BlankConcat([s[0]], s[1..][..|s| - 1 - |rest|]);
      rest
    else
      s
  }

  function TrimEnd(s: string): (r: string)
    ensures |r| <= |s| && r == s[..|r|]
    ensures IsBlank(s[|r|..])
    ensures r == [] || !IsWhitespace(r[|r| - 1])
  {
    if |s| > 0 && IsWhitespace(s[|s| - 1]) then
      var rest := TrimEnd(s[..|s| - 1]);
      assert s[|rest|..] == s[..|s| - 1][|rest|..] + [s[|s| - 1]];
      BlankConcat(s[..|s| - 1][|rest|..], [s[|s| - 1]]);
      rest
    else
      s
  }

  lemma BlankConcat(a: string, b: string)
    requires IsBlank(a) && IsBlank(b)
    ensures IsBlank(a + b)
  {
    forall k | 0 <= k < |a + b| ensures IsWhitespace((a + b)[k]) {
      if k >= |a| { assert (a + b)[k] == b[k - |a|]; }
    }
  }

  /** `String.prototype.trim`: white space dropped at both ends. */
  function Trim(s: string): (r: string)
    ensures r == [] || (!IsWhitespace(r[0]) && !IsWhitespace(r[|r| - 1]))
    ensures r == [] <==> IsBlank(s)
  {
    var front := TrimStart(s);
    var r := TrimEnd(front);
    BlankInfix(s, front, r);
    r
  }

  /** `r` sits at index `i` of `s`, with only white space before and after it. */
  predicate BlankAround(s: string, r: string, i: int)
  {
    0 <= i <= |s| - |r| && r == s[i..i + |r|] && IsBlank(s[..i]) && IsBlank(s[i + |r|..])
  }

  /** What `trim` keeps is an infix of `s` between two blank stretches. */
  lemma TrimIsInfix(s: string)
    ensures exists i :: BlankAround(s, Trim(s), i)
  {
    var front := TrimStart(s);
    var r := TrimEnd(front);
    assert r == Trim(s);
    BlankInfix(s, front, r);
  }

  /** Trimming a trimmed string changes nothing. */
  lemma TrimIdempotent(s: string)
    ensures Trim(Trim(s)) == Trim(s)
  {
    var r := Trim(s);
    assert TrimStart(r) == r;
  }

  lemma BlankInfix(s: string, front: string, r: string)
    requires |front| <= |s| && front == s[|s| - |front|..] && IsBlank(s[..|s| - |front|])
    requires front == [] || !IsWhitespace(front[0])
    requires |r| <= |front| && r == front[..|r|] && IsBlank(front[|r|..])
    requires r == [] || !IsWhitespace(r[|r| - 1])
    ensures BlankAround(s, r, |s| - |front|)
    ensures r == [] || (!IsWhitespace(r[0]) && !IsWhitespace(r[|r| - 1]))
    ensures r == [] <==> IsBlank(s)
  {
    var i := |s| - |front|;
    assert s[i + |r|..] == front[|r|..];
    assert r == s[i..i + |r|];
    if r == [] {
      assert front[|r|..] == front;
      assert front == [];
      assert s == s[..i];
    } else {
      assert front[0] == r[0];
      assert s[i] == r[0] && !IsWhitespace(s[i]);
    }
  }

  /**
   * `s.length`: the number of UTF-16 code units, so a character outside the
   * Basic Multilingual Plane (an emoji, say) counts twice.
   */
  function JsLength(s: string): (n: nat)
    ensures |s| <= n <= 2 * |s|
  {
    if s == [] then 0 else (if s[0] as int >= 0x1_0000 then 2 else 1) + JsLength(s[1..])
  }

  lemma {:induction false} JsLengthConcat(a: string, b: string)
    ensures JsLength(a + b) == JsLength(a) + JsLength(b)
  {
    if a == [] {
      assert a + b == b;
    } else {
      assert (a + b)[0] == a[0] && (a + b)[1..] == a[1..] + b;
      JsLengthConcat(a[1..], b);
    }
  }

  /** Within the Basic Multilingual Plane `length` counts characters. */
  lemma {:induction false} JsLengthOfBmp(s: string)
    requires forall i :: 0 <= i < |s| ==> (s[i] as int) < 0x1_0000
    ensures JsLength(s) == |s|
  {
    if s != [] {
      assert forall i :: 0 <= i < |s[1..]| ==> s[1..][i] == s[i + 1];
      JsLengthOfBmp(s[1..]);
    }
  }

  /** A character outside the Basic Multilingual Plane is two code units. */
  lemma AstralCharIsTwoUnits(c: char)
    requires c as int >= 0x1_0000
    ensures JsLength([c]) == 2
  {
    assert [c][1..] == [];
  }

  /** `s.startsWith(prefix)`. */
  predicate StartsWith(s: string, prefix: string)
  {
    |prefix| <= |s| && s[..|prefix|] == prefix
  }

  /** Two prefixes that begin differently cannot both start a string. */
  lemma StartsWithDiffering(s: string, p: string, q: string)
    requires StartsWith(s, p) && |p| > 0 && |q| > 0 && p[0] != q[0]
    ensures !StartsWith(s, q)
  {
    assert s[0] == s[..|p|][0];
  }

  /** `s.endsWith(suffix)`. */
  predicate EndsWith(s: string, suffix: string)
  {
    |suffix| <= |s| && s[|s| - |suffix|..] == suffix
  }

  /** Glue pieces back together with `sep` between neighbours: `pieces.join(sep)`. */
  function Join(pieces: seq<string>, sep: char): string
  {
    if |pieces| == 0 then ""
    else if |pieces| == 1 then pieces[0]
    else pieces[0] + [sep] + Join(pieces[1..], sep)
  }

  /** `s.split(sep)` for a one-character string `sep`: every occurrence cuts. */
  function SplitOn(s: string, sep: char): (pieces: seq<string>)
    ensures |pieces| >= 1
    ensures forall i :: 0 <= i < |pieces| ==> sep !in pieces[i]
  {
    if |s| == 0 then [""]
    else if s[0] == sep then [""] + SplitOn(s[1..], sep)
    else
      var rest := SplitOn(s[1..], sep);
      [[s[0]] + rest[0]] + rest[1..]
  }

  /** Joining the pieces with the separator gives the string back. */
  lemma {:induction false} JoinSplitOn(s: string, sep: char)
    ensures Join(SplitOn(s, sep), sep) == s
  {
    if |s| > 0 {
      JoinSplitOn(s[1..], sep);
      var rest := SplitOn(s[1..], sep);
      if s[0] == sep {
        assert ([""] + rest)[1..] == rest;
        assert s == [sep] + s[1..];
      } else {
        var pieces := [[s[0]] + rest[0]] + rest[1..];
        assert pieces[1..] == rest[1..];
        assert s == [s[0]] + s[1..];
      }
    }
  }

  lemma {:induction false} SplitOnWithoutSeparator(s: string, sep: char)
    requires sep !in s
    ensures SplitOn(s, sep) == [s]
  {
    if |s| > 0 {
      assert s[1..] == s[|s| - (|s| - 1)..] && sep !in s[1..];
      SplitOnWithoutSeparator(s[1..], sep);
      assert s == [s[0]] + s[1..];
    }
  }

  lemma SplitOnCons(x: char, t: string, sep: char)
    ensures SplitOn([x] + t, sep) ==
      if x == sep then [""] + SplitOn(t, sep)
      else [[x] + SplitOn(t, sep)[0]] + SplitOn(t, sep)[1..]
  {
    assert ([x] + t)[0] == x && ([x] + t)[1..] == t;
  }

  lemma ConsLift(head: string, left: seq<string>, right: seq<string>)
    requires |left| >= 1
    ensures [head + left[0]] + (left + right)[1..] == ([head + left[0]] + left[1..]) + right
  {
    assert (left + right)[1..] == left[1..] + right;
  }

  /** Cutting at one separator concatenates the two sides' pieces. */
  lemma {:induction false} SplitOnConcat(a: string, b: string, sep: char)
    ensures SplitOn(a + [sep] + b, sep) == SplitOn(a, sep) + SplitOn(b, sep)
  {
    if |a| == 0 {
      assert a + [sep] + b == [sep] + b;
      SplitOnCons(sep, b, sep);
    } else {
      var tail := a[1..] + [sep] + b;
      assert a + [sep] + b == [a[0]] + tail;
      assert a == [a[0]] + a[1..];
      SplitOnConcat(a[1..], b, sep);
      SplitOnCons(a[0], tail, sep);
      SplitOnCons(a[0], a[1..], sep);
      if a[0] != sep {
        ConsLift([a[0]], SplitOn(a[1..], sep), SplitOn(b, sep));
      }
    }
  }

  predicate IsNonEmpty(s: string)
  {
    s != ""
  }

  /** The pieces that are not the empty string. */
  function NonEmpty(pieces: seq<string>): seq<string>
  {
    Filter(pieces, IsNonEmpty)
  }

  /**
   * `s.split(/c+/)` for a regular expression matching runs of `sep`: the
   * string is cut at each maximal run, so an empty piece can only be the
   * first one (the string starts with `sep`) or the last one (it ends with `sep`).
   */
  function SplitRuns(s: string, sep: char): (pieces: seq<string>)
    ensures |pieces| >= 1
    ensures forall i :: 0 <= i < |pieces| ==> sep !in pieces[i]
    ensures forall i :: 0 < i < |pieces| - 1 ==> pieces[i] != ""
    ensures NonEmpty(pieces) == NonEmpty(SplitOn(s, sep))
  {
    var all := SplitOn(s, sep);
    if |all| == 1 then all
    else
      var middle := all[1..|all| - 1];
      var pieces := [all[0]] + NonEmpty(middle) + [all[|all| - 1]];
      DropInnerEmpties(all, pieces);
      pieces
  }

  /**
   * Only inner empty pieces are dropped: the first and the last piece are
   * those of the split on every `sep`.
   */
  lemma SplitRunsKeepsEnds(s: string, sep: char)
    ensures SplitRuns(s, sep)[0] == SplitOn(s, sep)[0]
    ensures SplitRuns(s, sep)[|SplitRuns(s, sep)| - 1] == SplitOn(s, sep)[|SplitOn(s, sep)| - 1]
  {
    var all := SplitOn(s, sep);
    if |all| > 1 {
      var pieces := [all[0]] + NonEmpty(all[1..|all| - 1]) + [all[|all| - 1]];
      assert SplitRuns(s, sep) == pieces;
      assert pieces[0] == all[0] && pieces[|pieces| - 1] == all[|all| - 1];
    }
  }

  lemma DropInnerEmpties(all: seq<string>, pieces: seq<string>)
    requires |all| >= 2
    requires pieces == [all[0]] + NonEmpty(all[1..|all| - 1]) + [all[|all| - 1]]
    ensures forall i :: 0 < i < |pieces| - 1 ==> pieces[i] != ""
    ensures forall i :: 0 <= i < |pieces| ==> pieces[i] in all
    ensures NonEmpty(pieces) == NonEmpty(all)
  {
    var first, middle, last := [all[0]], all[1..|all| - 1], [all[|all| - 1]];
    var kept := NonEmpty(middle);
    assert all == first + middle + last;
    FilterConcat(first + middle, last, IsNonEmpty);
    FilterConcat(first, middle, IsNonEmpty);
    FilterConcat(first + kept, last, IsNonEmpty);
    FilterConcat(first, kept, IsNonEmpty);
    FilterIdempotent(middle, IsNonEmpty);
    FilterMembers(middle, IsNonEmpty);
    forall i | 0 < i < |pieces| - 1 ensures pieces[i] != "" {
      assert pieces[i] == kept[i - 1];
    }
    forall i | 0 <= i < |pieces| ensures pieces[i] in all {
      if 0 < i < |pieces| - 1 { assert pieces[i] == kept[i - 1]; }
    }
  }
}
