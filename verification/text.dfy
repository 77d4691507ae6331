/**
 * The Python `str` operations the source-list scanners and the table
 * renderer rely on: `splitlines`, `strip`, `split()`, `split(sep)`, `in`,
 * `startswith`, `replace`, `join`, `lower`, string ordering, and `str(int)`.
 * Strings are sequences of code points, compared code point by code point.
 */
module Text {
  import Sorting

  /**
   * The characters `str.isspace` accepts (and `split()`/`strip()` use):
   * tab to carriage return, the four separators and the space, NEL,
   * no-break space, Ogham space mark, the spaces U+2000 to U+200A, the
   * line and paragraph separators, narrow no-break space, medium
   * mathematical space and the ideographic space.
   */
  predicate IsSpace(c: char)
  {
    || '\t' <= c <= '\r'
    || '\U{1C}' <= c <= ' '
    || c == '\U{85}' || c == '\U{A0}' || c == '\U{1680}'
    || '\U{2000}' <= c <= '\U{200A}'
    || c == '\U{2028}' || c == '\U{2029}' || c == '\U{202F}' || c == '\U{205F}' || c == '\U{3000}'
  }

  /**
   * The line boundaries of `str.splitlines` (`\r\n` counts as one): line
   * feed to carriage return, the file, group and record separators, NEL and
   * the line and paragraph separators.
   */
  predicate IsLineBreak(c: char)
  {
    || '\n' <= c <= '\r'
    || '\U{1C}' <= c <= '\U{1E}'
    || c == '\U{85}' || c == '\U{2028}' || c == '\U{2029}'
  }

  predicate NoSpace(s: string)
  {
    forall i :: 0 <= i < |s| ==> !IsSpace(s[i])
  }

  predicate AllSpace(s: string)
  {
    forall i :: 0 <= i < |s| ==> IsSpace(s[i])
  }

  predicate NoLineBreak(s: string)
  {
    forall i :: 0 <= i < |s| ==> !IsLineBreak(s[i])
  }

  /** `pat` occurs in `s` at index `i`. */
  predicate InfixAt(pat: string, s: string, i: int)
  {
    0 <= i && i + |pat| <= |s| && s[i..i + |pat|] == pat
  }

  /** `pat in s` */
  predicate IsInfix(pat: string, s: string)
  {
    exists i :: 0 <= i <= |s| && InfixAt(pat, s, i)
  }

  predicate StartsWith(s: string, p: string)
  {
    |p| <= |s| && s[..|p|] == p
  }

  lemma InfixTrans(p: string, m: string, s: string)
    requires IsInfix(p, m) && IsInfix(m, s)
    ensures IsInfix(p, s)
  {
    var i :| 0 <= i <= |m| && InfixAt(p, m, i);
    var j :| 0 <= j <= |s| && InfixAt(m, s, j);
    forall k | 0 <= k < |p| ensures s[j + i + k] == p[k] {
      assert p[k] == m[i..i + |p|][k] == m[i + k];
      assert m[i + k] == s[j..j + |m|][i + k];
    }
    assert s[j + i..j + i + |p|] == p;
    assert InfixAt(p, s, j + i);
  }

  lemma InfixOfSlice(s: string, a: nat, b: nat)
    requires a <= b <= |s|
    ensures IsInfix(s[a..b], s) && IsInfix(s[a..], s) && IsInfix(s[..b], s)
  {
    assert InfixAt(s[a..b], s, a);
    assert s[a..] == s[a..|s|];
    assert InfixAt(s[a..], s, a);
    assert InfixAt(s[..b], s, 0);
  }

  function Concat(xs: seq<string>): string
  {
    if xs == [] then "" else xs[0] + Concat(xs[1..])
  }

  /** `sep.join(xs)` */
  function Join(xs: seq<string>, sep: string): string
  {
    if xs == [] then ""
    else if |xs| == 1 then xs[0]
    else xs[0] + sep + Join(xs[1..], sep)
  }

  // ---------------------------------------------------------------- lines

  /** Index of the first line boundary, or `|s|`. */
  function FirstBreak(s: string): (i: nat)
    ensures i <= |s|
  {
    if s == [] || IsLineBreak(s[0]) then 0 else FirstBreak(s[1..]) + 1
  }

  /** No boundary comes before the first one. */
  lemma {:induction false} FirstBreakSpec(s: string)
    ensures NoLineBreak(s[..FirstBreak(s)])
    ensures FirstBreak(s) < |s| ==> IsLineBreak(s[FirstBreak(s)])
  {
    if s != [] && !IsLineBreak(s[0]) {
      var k := FirstBreak(s[1..]);
      FirstBreakSpec(s[1..]);
      assert s[..k + 1] == [s[0]] + s[1..][..k];
    }
  }

  /** Length of the boundary at `i`: two for `\r\n`, one otherwise. */
  function BreakLen(s: string, i: nat): nat
    requires i < |s|
  {
    if s[i] == '\r' && i + 1 < |s| && s[i + 1] == '\n' then 2 else 1
  }

  /**
   * `s.splitlines()`: the text between boundaries; a final boundary does not
   * start an empty last line, and the empty string has no lines.
   */
  function SplitLines(s: string): seq<string>
    decreases |s|
  {
    if s == [] then []
    else
      var i := FirstBreak(s);
      if i == |s| then [s] else [s[..i]] + SplitLines(s[i + BreakLen(s, i)..])
  }

  /** No line holds a boundary. */
  lemma {:induction false} SplitLinesNoBreak(s: string)
    ensures forall j :: 0 <= j < |SplitLines(s)| ==> NoLineBreak(SplitLines(s)[j])
    decreases |s|
  {
    if s != [] {
      var i := FirstBreak(s);
      FirstBreakSpec(s);
      if i < |s| {
        SplitLinesNoBreak(s[i + BreakLen(s, i)..]);
      } else {
        assert s[..i] == s;
      }
    }
  }

  /** Every line is a piece of the text. */
  lemma {:induction false} SplitLinesInfix(s: string)
    ensures forall j :: 0 <= j < |SplitLines(s)| ==> IsInfix(SplitLines(s)[j], s)
    decreases |s|
  {
    if s != [] {
      var i := FirstBreak(s);
      InfixOfSlice(s, 0, i);
      if i < |s| {
        var k := i + BreakLen(s, i);
        var rest := s[k..];
        var tail := SplitLines(rest);
        SplitLinesUnfold(s, i, k);
        SplitLinesInfix(rest);
        InfixOfSlice(s, k, |s|);
        forall j | 0 <= j < |tail| ensures IsInfix(tail[j], s) {
          InfixTrans(tail[j], rest, s);
        }
        ListCons(s[..i], tail);
      } else {
        assert s[..i] == s;
      }
    }
  }

  /** Splitting at the first boundary. */
  lemma SplitLinesUnfold(s: string, i: nat, k: nat)
    requires s != [] && i == FirstBreak(s) && i < |s| && k == i + BreakLen(s, i)
    ensures SplitLines(s) == [s[..i]] + SplitLines(s[k..])
  {
  }

  lemma ListCons<T>(x: T, xs: seq<T>)
    ensures forall j :: 0 <= j < |xs| ==> ([x] + xs)[j + 1] == xs[j]
    ensures ([x] + xs)[0] == x && |[x] + xs| == |xs| + 1
  {
  }

  /** The first boundary is the one at `k` when none comes before it. */
  lemma {:induction false} FirstBreakAt(s: string, k: nat)
    requires k < |s| && NoLineBreak(s[..k]) && IsLineBreak(s[k])
    ensures FirstBreak(s) == k
  {
    if k > 0 {
      assert s[..k][0] == s[0];
      assert s[1..][..k - 1] == s[..k][1..];
      FirstBreakAt(s[1..], k - 1);
    }
  }

  /** Two line feeds in a row end a line and then give an empty line. */
  lemma SplitLinesBlank(a: string, b: string)
    requires NoLineBreak(a)
    ensures SplitLines(a + "\n\n" + b) == [a, ""] + SplitLines(b)
  {
    var s := a + "\n\n" + b;
    var rest := ['\n'] + b;
    PairAssoc(a, '\n', '\n', b);
    SliceAround(a, '\n', rest);
    FirstBreakAt(s, |a|);
    SplitLinesFeed(s, |a|);
    SliceAround([], '\n', b);
    assert [] + rest == rest;
    FirstBreakAt(rest, 0);
    SplitLinesFeed(rest, 0);
    ConsCons(a, "", SplitLines(b));
  }

  lemma AppendNil<T>(a: seq<T>)
    ensures a + [] == a
  {
  }

  lemma Regroup<T>(a: seq<T>, x: T, c: seq<T>, d: seq<T>)
    ensures a + ([x] + c + d) == a + [x] + (c + d)
  {
  }

  lemma ConsAround<T>(x: T, xs: seq<T>, y: T)
    requires xs != []
    ensures [x] + ([xs[0]] + xs[1..] + [y]) == [x] + xs + [y]
  {
  }

  lemma SepRegroup<T>(a: seq<T>, x: seq<T>, c: T, d: T, r: seq<T>)
    ensures a + (x + [c, d] + r) == (a + x) + [c] + ([d] + r)
  {
  }

  lemma ConsCons<T>(x: T, y: T, r: seq<T>)
    ensures [x] + ([y] + r) == [x, y] + r
  {
  }

  lemma PairAssoc<T>(a: seq<T>, x: T, y: T, b: seq<T>)
    ensures a + [x, y] + b == a + [x] + ([y] + b)
  {
  }

  lemma SliceAround<T>(a: seq<T>, c: T, r: seq<T>)
    ensures (a + [c] + r)[..|a|] == a && (a + [c] + r)[|a|] == c && (a + [c] + r)[|a| + 1..] == r
  {
  }

  /** Whether `s` ends with a `\n` (which then starts no line of its own). */
  function TrailingNewline(s: string): string
  {
    if s != [] && s[|s| - 1] == '\n' then "\n" else ""
  }

  /**
   * On text whose only boundary is `\n`, joining the lines with `\n` gives
   * the text back, up to a final `\n`.
   */
  lemma {:induction false} SplitLinesJoin(s: string)
    requires forall i :: 0 <= i < |s| ==> !IsLineBreak(s[i]) || s[i] == '\n'
    ensures Join(SplitLines(s), "\n") + TrailingNewline(s) == s
    decreases |s|
  {
    if s != [] {
      var i := FirstBreak(s);
      FirstBreakSpec(s);
      if i == |s| {
        SplitLinesOne(s);
      } else {
        SplitLinesJoin(s[i + 1..]);
        SplitLinesJoinStep(s, i);
      }
    }
  }

  /** One more line, ended by a line feed, in front of text that joins back. */
  lemma SplitLinesJoinStep(s: string, i: nat)
    requires i == FirstBreak(s) && i < |s| && s[i] == '\n'
    requires Join(SplitLines(s[i + 1..]), "\n") + TrailingNewline(s[i + 1..]) == s[i + 1..]
    ensures Join(SplitLines(s), "\n") + TrailingNewline(s) == s
  {
    var line := s[..i];
    var rest := s[i + 1..];
    SplitLinesFeed(s, i);
    Unsplit(s, i);
    assert [s[i]] == "\n";
    if rest == [] {
      assert Join([line], "\n") == line;
    } else {
      var ls := SplitLines(rest);
      var tn := TrailingNewline(rest);
      assert ls != [];
      JoinCons(line, ls, "\n");
      assert TrailingNewline(s) == tn by {
        assert s[|s| - 1] == rest[|rest| - 1];
      }
      AppendAssoc(line, "\n", Join(ls, "\n"), tn);
    }
  }

  lemma Unsplit<T>(s: seq<T>, i: nat)
    requires i < |s|
    ensures s[..i] + [s[i]] + s[i + 1..] == s
  {
  }

  lemma AppendAssoc<T>(a: seq<T>, b: seq<T>, c: seq<T>, d: seq<T>)
    ensures a + b + c + d == a + b + (c + d)
  {
  }

  /** Text without a boundary is one line. */
  lemma SplitLinesOne(s: string)
    requires s != [] && FirstBreak(s) == |s|
    ensures SplitLines(s) == [s] && TrailingNewline(s) == ""
  {
    FirstBreakSpec(s);
    assert s[..|s|][|s| - 1] == s[|s| - 1];
  }

  /** A line ended by a line feed. */
  lemma SplitLinesFeed(s: string, i: nat)
    requires i == FirstBreak(s) && i < |s| && s[i] == '\n'
    ensures SplitLines(s) == [s[..i]] + SplitLines(s[i + 1..])
  {
    SplitLinesUnfold(s, i, i + 1);
  }

  lemma JoinCons(x: string, ys: seq<string>, sep: string)
    requires ys != []
    ensures Join([x] + ys, sep) == x + sep + Join(ys, sep)
  {
    assert ([x] + ys)[1..] == ys;
  }

  // ---------------------------------------------------------------- strip

  /** `s.lstrip()` */
  function StripLeft(s: string): string
  {
    if s != [] && IsSpace(s[0]) then StripLeft(s[1..]) else s
  }

  /** `s.rstrip()` */
  function StripRight(s: string): string
  {
    if s != [] && IsSpace(s[|s| - 1]) then StripRight(s[..|s| - 1]) else s
  }

  /** `s.strip()` */
  function Strip(s: string): string
  {
    StripRight(StripLeft(s))
  }

  /** `lstrip()` drops a run of whitespace and stops at the first other character. */
  lemma {:induction false} StripLeftAt(s: string) returns (i: nat)
    ensures i <= |s| && StripLeft(s) == s[i..] && AllSpace(s[..i])
    ensures i < |s| ==> !IsSpace(s[i])
  {
    if s != [] && IsSpace(s[0]) {
      var k := StripLeftAt(s[1..]);
      i := k + 1;
      assert s[1..][k..] == s[i..];
      assert s[..i] == [s[0]] + s[1..][..k];
    } else {
      i := 0;
    }
  }

  /** `rstrip()` drops a run of whitespace and stops at the last other character. */
  lemma {:induction false} StripRightAt(s: string) returns (j: nat)
    ensures j <= |s| && StripRight(s) == s[..j] && AllSpace(s[j..])
    ensures 0 < j ==> !IsSpace(s[j - 1])
  {
    if s != [] && IsSpace(s[|s| - 1]) {
      var init := s[..|s| - 1];
      j := StripRightAt(init);
      assert init[..j] == s[..j];
      forall m | 0 <= m < |s| - j ensures IsSpace(s[j..][m]) {
        if m < |s| - 1 - j {
          assert s[j..][m] == init[j..][m];
        }
      }
    } else {
      j := |s|;
    }
  }

  /** `strip()` keeps a slice with only whitespace before and after it... */
  lemma StripSpec(s: string)
    ensures exists i, j :: 0 <= i <= j <= |s| && Strip(s) == s[i..j] && AllSpace(s[..i]) && AllSpace(s[j..])
  {
    var i := StripLeftAt(s);
    var t := s[i..];
    var k := StripRightAt(t);
    assert t[..k] == s[i..i + k];
    assert t[k..] == s[i + k..];
  }

  /** ...and that slice neither starts nor ends with whitespace. */
  lemma StripEnds(s: string)
    ensures Strip(s) != [] ==> !IsSpace(Strip(s)[0]) && !IsSpace(Strip(s)[|Strip(s)| - 1])
  {
    var i := StripLeftAt(s);
    var t := s[i..];
    var k := StripRightAt(t);
    if Strip(s) != [] {
      assert Strip(s)[0] == t[0] == s[i];
      assert Strip(s)[|Strip(s)| - 1] == t[k - 1];
    }
  }

  /** What `strip()` keeps occurs in the string. */
  lemma StripInfix(s: string)
    ensures IsInfix(Strip(s), s)
  {
    var i := StripLeftAt(s);
    var k := StripRightAt(s[i..]);
    assert s[i..][..k] == s[i..i + k];
    InfixOfSlice(s, i, i + k);
  }

  /** A string without whitespace holds no space character. */
  lemma NoSpaceNoBlank(s: string)
    requires NoSpace(s)
    ensures ' ' !in s
  {
    assert IsSpace(' ');
  }

  /** A string without whitespace is its own `strip()`. */
  lemma StripNoSpace(s: string)
    requires NoSpace(s)
    ensures Strip(s) == s
  {
    if s != [] {
      assert !IsSpace(s[0]) && !IsSpace(s[|s| - 1]);
    }
  }

  // ---------------------------------------------------------------- split()

  function FirstSpace(s: string): (i: nat)
    ensures i <= |s| && NoSpace(s[..i])
    ensures i < |s| ==> IsSpace(s[i])
  {
    if s == [] || IsSpace(s[0]) then 0
    else
      var k := FirstSpace(s[1..]);
      assert s[..k + 1] == [s[0]] + s[1..][..k];
      k + 1
  }

  /** The non-whitespace characters of `s`, in order. */
  function NonSpace(s: string): string
  {
    if s == [] then "" else (if IsSpace(s[0]) then "" else [s[0]]) + NonSpace(s[1..])
  }

  /** `s.split()`: the maximal runs of non-whitespace characters. */
  function SplitWs(s: string): (r: seq<string>)
    ensures forall j :: 0 <= j < |r| ==> r[j] != "" && NoSpace(r[j])
    decreases |s|
  {
    if s == [] then []
    else if IsSpace(s[0]) then SplitWs(s[1..])
    else
      var i := FirstSpace(s);
      [s[..i]] + SplitWs(s[i..])
  }

  /** Every word is a piece of the text. */
  lemma {:induction false} SplitWsInfix(s: string)
    ensures forall j :: 0 <= j < |SplitWs(s)| ==> IsInfix(SplitWs(s)[j], s)
    decreases |s|
  {
    if s == [] {
    } else if IsSpace(s[0]) {
      var tail := SplitWs(s[1..]);
      SplitWsInfix(s[1..]);
      InfixOfSlice(s, 1, |s|);
      forall j | 0 <= j < |tail| ensures IsInfix(tail[j], s) {
        InfixTrans(tail[j], s[1..], s);
      }
    } else {
      var i := FirstSpace(s);
      var tail := SplitWs(s[i..]);
      SplitWsInfix(s[i..]);
      InfixOfSlice(s, 0, i);
      InfixOfSlice(s, i, |s|);
      forall j | 0 <= j < |tail| ensures IsInfix(tail[j], s) {
        InfixTrans(tail[j], s[i..], s);
      }
    }
  }

  lemma {:induction false} NonSpaceAppend(a: string, b: string)
    ensures NonSpace(a + b) == NonSpace(a) + NonSpace(b)
  {
    if a == [] {
      assert a + b == b;
    } else {
      assert (a + b)[0] == a[0];
      assert (a + b)[1..] == a[1..] + b;
      NonSpaceAppend(a[1..], b);
    }
  }

  lemma {:induction false} NonSpaceOfWord(s: string)
    requires NoSpace(s)
    ensures NonSpace(s) == s
  {
    if s != [] { NonSpaceOfWord(s[1..]); }
  }

  /** Splitting on whitespace loses exactly the whitespace. */
  lemma {:induction false} SplitWsConcat(s: string)
    ensures Concat(SplitWs(s)) == NonSpace(s)
    decreases |s|
  {
    if s == [] {
    } else if IsSpace(s[0]) {
      SplitWsConcat(s[1..]);
    } else {
      var i := FirstSpace(s);
      var w := s[..i];
      var xs := SplitWs(s[i..]);
      assert Concat([w] + xs) == w + Concat(xs) by {
        assert ([w] + xs)[1..] == xs;
      }
      SplitWsConcat(s[i..]);
      Unslice(s, i);
      NonSpaceAppend(w, s[i..]);
      NonSpaceOfWord(w);
    }
  }

  lemma Unslice<T>(s: seq<T>, i: nat)
    requires i <= |s|
    ensures s[..i] + s[i..] == s
  {
  }

  // ---------------------------------------------------------------- split(sep)

  /** `s.split(sep)` for a one-character separator. */
  function SplitOn(s: string, sep: char): (r: seq<string>)
    ensures |r| >= 1
    ensures forall j :: 0 <= j < |r| ==> sep !in r[j]
    ensures sep !in s ==> r == [s]
    ensures sep in s ==> |r| >= 2
  {
    if s == [] then [""]
    else if s[0] == sep then [""] + SplitOn(s[1..], sep)
    else
      var rest := SplitOn(s[1..], sep);
      assert sep !in s ==> sep !in s[1..] && rest == [s[1..]];
      assert sep !in s ==> [s[0]] + s[1..] == s;
      [[s[0]] + rest[0]] + rest[1..]
  }

  /** Splitting on a separator and joining with it gives the text back. */
  lemma {:induction false} SplitOnJoin(s: string, sep: char)
    ensures Join(SplitOn(s, sep), [sep]) == s
  {
    if s != [] {
      SplitOnJoin(s[1..], sep);
      var rest := SplitOn(s[1..], sep);
      if s[0] != sep && |rest| > 1 {
        assert rest == [rest[0]] + rest[1..];
      }
    }
  }

  /** A separator-free piece followed by the separator splits off as the first field. */
  lemma {:induction false} SplitOnCons(a: string, sep: char, b: string)
    requires sep !in a
    ensures SplitOn(a + [sep] + b, sep) == [a] + SplitOn(b, sep)
  {
    var s := a + [sep] + b;
    if a == [] {
      assert s[1..] == b;
    } else {
      assert s[0] == a[0] && s[1..] == a[1..] + [sep] + b;
      SplitOnCons(a[1..], sep, b);
      assert [a[0]] + a[1..] == a;
    }
  }

  /** Separator-free fields joined and followed by the separator split back into those fields. */
  lemma {:induction false} SplitOnJoined(xs: seq<string>, sep: char, b: string)
    requires xs != [] && forall j :: 0 <= j < |xs| ==> sep !in xs[j]
    ensures SplitOn(Join(xs, [sep]) + [sep] + b, sep) == xs + SplitOn(b, sep)
  {
    if |xs| == 1 {
      assert Join(xs, [sep]) == xs[0];
      SplitOnCons(xs[0], sep, b);
      assert xs == [xs[0]];
    } else {
      var j := Join(xs[1..], [sep]);
      var tail := j + [sep] + b;
      var whole := Join(xs, [sep]) + [sep] + b;
      var rest := SplitOn(b, sep);
      assert SplitOn(whole, sep) == [xs[0]] + SplitOn(tail, sep) by {
        assert whole == xs[0] + [sep] + tail by {
          assert Join(xs, [sep]) == xs[0] + [sep] + j;
        }
        SplitOnCons(xs[0], sep, tail);
      }
      assert SplitOn(tail, sep) == xs[1..] + rest by {
        SplitOnJoined(xs[1..], sep, b);
      }
      ConsAppend(xs, rest);
    }
  }

  lemma ConsAppend<T>(xs: seq<T>, ys: seq<T>)
    requires xs != []
    ensures [xs[0]] + (xs[1..] + ys) == xs + ys
  {
    assert xs == [xs[0]] + xs[1..];
  }

  /** `s.split(sep)[0]` is the text before the first separator, or all of `s`. */
  lemma {:induction false} FirstField(s: string, sep: char, k: nat)
    requires k <= |s| && sep !in s[..k] && (k == |s| || s[k] == sep)
    ensures SplitOn(s, sep)[0] == s[..k]
  {
    if k == |s| {
      assert s[..k] == s;
    } else if k > 0 {
      assert s[0] == s[..k][0];
      assert s[1..][..k - 1] == s[..k][1..];
      FirstField(s[1..], sep, k - 1);
      assert s[..k] == [s[0]] + s[1..][..k - 1];
    }
  }

  /** `s.split(sep)[1]` is the text between the first and second separator. */
  lemma {:induction false} SecondField(s: string, sep: char, i: nat)
    requires i < |s| && s[i] == sep && sep !in s[..i]
    ensures |SplitOn(s, sep)| >= 2 && SplitOn(s, sep)[0] == s[..i]
    ensures SplitOn(s, sep)[1] == SplitOn(s[i + 1..], sep)[0]
  {
    if i > 0 {
      assert s[0] != sep by { assert s[..i][0] == s[0]; }
      assert s[1..][..i - 1] == s[..i][1..];
      SecondField(s[1..], sep, i - 1);
      assert s[1..][i..] == s[i + 1..];
    }
  }

  // ---------------------------------------------------------------- replace

  /** `s.replace(pat, rep)`: occurrences taken left to right, without overlap. */
  function Replace(s: string, pat: string, rep: string): string
    requires pat != ""
    decreases |s|
  {
    if |s| < |pat| then s
    else if s[..|pat|] == pat then rep + Replace(s[|pat|..], pat, rep)
    else [s[0]] + Replace(s[1..], pat, rep)
  }

  /** A prefix of the result either holds an inserted space or was copied unchanged. */
  lemma {:induction false} ReplacePrefix(s: string, pat: string, k: nat)
    requires pat != "" && k <= |Replace(s, pat, " ")|
    ensures ' ' in Replace(s, pat, " ")[..k] || (k <= |s| && Replace(s, pat, " ")[..k] == s[..k])
    decreases |s|
  {
    var r := Replace(s, pat, " ");
    if |s| < |pat| || k == 0 {
    } else if s[..|pat|] == pat {
      assert r[..k][0] == ' ';
    } else {
      var t := Replace(s[1..], pat, " ");
      assert r[..k] == [s[0]] + t[..k - 1];
      ReplacePrefix(s[1..], pat, k - 1);
      if ' ' in t[..k - 1] {
        var j :| 0 <= j < k - 1 && t[..k - 1][j] == ' ';
        assert r[..k][j + 1] == ' ';
      } else {
        assert s[..k] == [s[0]] + s[1..][..k - 1];
      }
    }
  }

  /** Replacing a space-free pattern by a space leaves no occurrence of it. */
  lemma {:induction false} ReplaceRemoves(s: string, pat: string)
    requires pat != "" && ' ' !in pat
    ensures !IsInfix(pat, Replace(s, pat, " "))
    decreases |s|
  {
    var r := Replace(s, pat, " ");
    if |s| >= |pat| {
      var starts := s[..|pat|] == pat;
      var rest := if starts then s[|pat|..] else s[1..];
      var t := Replace(rest, pat, " ");
      assert r == (if starts then " " else [s[0]]) + t;
      ReplaceRemoves(rest, pat);
      forall i | 0 <= i <= |r| ensures !InfixAt(pat, r, i) {
        if i == 0 {
          if starts {
            assert r[0] == ' ';
          } else if |pat| <= |r| {
            ReplacePrefix(s, pat, |pat|);
          }
        } else if InfixAt(pat, r, i) {
          assert t[i - 1..i - 1 + |pat|] == r[i..i + |pat|];
          assert InfixAt(pat, t, i - 1);
        }
      }
    }
  }

  /** Every space-free piece of the result already occurred in the input. */
  lemma {:induction false} ReplaceKeeps(s: string, pat: string, x: string)
    requires pat != ""
    ensures IsInfix(x, Replace(s, pat, " ")) && ' ' !in x ==> IsInfix(x, s)
    decreases |s|
  {
    var r := Replace(s, pat, " ");
    if x == "" {
      assert InfixAt(x, s, 0);
    } else if |s| >= |pat| && IsInfix(x, r) && ' ' !in x {
      var starts := s[..|pat|] == pat;
      var offset := if starts then |pat| else 1;
      var rest := s[offset..];
      var t := Replace(rest, pat, " ");
      assert r == (if starts then " " else [s[0]]) + t;
      var i :| 0 <= i <= |r| && InfixAt(x, r, i);
      if i == 0 {
        assert x[0] == r[0];
        ReplacePrefix(s, pat, |x|);
        assert InfixAt(x, s, 0);
      } else {
        assert t[i - 1..i - 1 + |x|] == r[i..i + |x|];
        assert InfixAt(x, t, i - 1);
        ReplaceKeeps(rest, pat, x);
        var j :| 0 <= j <= |rest| && InfixAt(x, rest, j);
        assert s[j + offset..j + offset + |x|] == rest[j..j + |x|];
        assert InfixAt(x, s, j + offset);
      }
    }
  }

  // ---------------------------------------------------------------- case, order, numbers

  function LowerChar(c: char): char
  {
    if 'A' <= c <= 'Z' then (c as int + 32) as char else c
  }

  /** `s.lower()` on ASCII letters. */
  function Lower(s: string): (r: string)
    ensures |r| == |s|
    ensures forall i :: 0 <= i < |s| ==> r[i] == LowerChar(s[i])
  {
    seq(|s|, i requires 0 <= i < |s| => LowerChar(s[i]))
  }

  /** `a <= b` on Python strings: code point by code point, a prefix first. */
  predicate LexLe(a: string, b: string)
  {
    a == [] || (b != [] && (a[0] < b[0] || (a[0] == b[0] && LexLe(a[1..], b[1..]))))
  }

  lemma {:induction false} LexLeTotal(a: string, b: string)
    ensures LexLe(a, b) || LexLe(b, a)
  {
    if a != [] && b != [] && a[0] == b[0] { LexLeTotal(a[1..], b[1..]); }
  }

  lemma {:induction false} LexLeTrans(a: string, b: string, c: string)
    requires LexLe(a, b) && LexLe(b, c)
    ensures LexLe(a, c)
  {
    if a != [] && a[0] == b[0] && b[0] == c[0] { LexLeTrans(a[1..], b[1..], c[1..]); }
  }

  lemma {:induction false} LexLeAntisym(a: string, b: string)
    requires LexLe(a, b) && LexLe(b, a)
    ensures a == b
  {
    if a != [] { LexLeAntisym(a[1..], b[1..]); }
  }

  /** String order is a total preorder, so `sorted` applies to strings. */
  lemma LexLeOrder()
    ensures Sorting.TotalPreorder(LexLe)
  {
    forall a, b ensures LexLe(a, b) || LexLe(b, a) { LexLeTotal(a, b); }
    forall a, b, c | LexLe(a, b) && LexLe(b, c) ensures LexLe(a, c) { LexLeTrans(a, b, c); }
  }

  function DigitChar(d: nat): char
    requires d < 10
  {
    ('0' as int + d) as char
  }

  /** `str(n)` */
  function Decimal(n: nat): (r: string)
    ensures r != [] && forall i :: 0 <= i < |r| ==> '0' <= r[i] <= '9'
    ensures |r| > 1 ==> r[0] != '0'
  {
    if n < 10 then [DigitChar(n)] else Decimal(n / 10) + [DigitChar(n % 10)]
  }

  /** `int(s)` on a string of decimal digits. */
  function DecimalValue(s: string): nat
    requires forall i :: 0 <= i < |s| ==> '0' <= s[i] <= '9'
  {
    if s == [] then 0 else 10 * DecimalValue(s[..|s| - 1]) + (s[|s| - 1] as int - '0' as int)
  }

  lemma {:induction false} DecimalRoundTrip(n: nat)
    ensures DecimalValue(Decimal(n)) == n
  {
    if n >= 10 {
      DecimalRoundTrip(n / 10);
      var r := Decimal(n);
      assert r[..|r| - 1] == Decimal(n / 10);
    }
  }
}
