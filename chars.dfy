/**
 * Character classes and string operations that stand in for the regular
 * expressions and `String.prototype` methods the template parser relies on.
 * Every regular expression of the parser is replaced by one of these scans.
 */
module Chars {

  /** `[\t\r\n\f ]`, the whitespace class of the tag and text grammar. */
  predicate IsHtmlSpace(c: char) {
    c == '\t' || c == '\r' || c == '\n' || c == '\U{000C}' || c == ' '
  }

  /** JavaScript's `\s`, which is also the set `String.prototype.trim` strips. */
  predicate IsJsSpace(c: char) {
    || c == '\t' || c == '\n' || c == '\U{000B}' || c == '\U{000C}' || c == '\r' || c == ' '
    || c == '\U{00A0}' || c == '\U{1680}' || ('\U{2000}' <= c <= '\U{200A}')
    || c == '\U{2028}' || c == '\U{2029}' || c == '\U{202F}' || c == '\U{205F}'
    || c == '\U{3000}' || c == '\U{FEFF}'
  }

  predicate IsAsciiLetter(c: char) {
    'a' <= c <= 'z' || 'A' <= c <= 'Z'
  }

  predicate IsAsciiUpper(c: char) {
    'A' <= c <= 'Z'
  }

  /** `[A-Za-z0-9-]`, the characters of a directive name after `v-`. */
  predicate IsDirectiveNameChar(c: char) {
    IsAsciiLetter(c) || '0' <= c <= '9' || c == '-'
  }

  predicate NotDot(c: char) {
    c != '.'
  }

  predicate IsCarriageReturn(c: char) {
    c == '\r'
  }

  /** ASCII lower-casing; other characters are left as they are. */
  function ToLowerChar(c: char): (r: char)
    ensures IsAsciiLetter(r) <==> IsAsciiLetter(c)
    ensures !IsAsciiUpper(r)
  {
    if 'A' <= c <= 'Z' then (c as int + 32) as char else c
  }

  function ToLower(s: string): (r: string)
    ensures |r| == |s|
  {
    seq(|s|, i requires 0 <= i < |s| => ToLowerChar(s[i]))
  }

  /** How many characters of `s` satisfy `p`. */
  function CountWhere(s: string, p: char -> bool): (n: nat)
    ensures n <= |s|
  {
    if s == [] then 0 else CountWhere(s[..|s| - 1], p) + (if p(s[|s| - 1]) then 1 else 0)
  }

  predicate AllHtmlSpace(s: string) {
    forall i :: 0 <= i < |s| ==> IsHtmlSpace(s[i])
  }

  predicate StartsWith(s: string, prefix: string) {
    |prefix| <= |s| && s[..|prefix|] == prefix
  }

  /** `t` occurs in `s` at index `i`. */
  predicate OccursAt(s: string, t: string, i: int) {
    0 <= i && i + |t| <= |s| && s[i..i + |t|] == t
  }

  /** `s.indexOf(t, from)`: the first occurrence at or after `from`, or -1. */
  function IndexOf(s: string, t: string, from: nat): (r: int)
    requires from <= |s|
    ensures r == -1 || (from <= r && OccursAt(s, t, r))
    ensures r == -1 ==> forall i :: from <= i ==> !OccursAt(s, t, i)
    ensures forall i :: from <= i < r ==> !OccursAt(s, t, i)
    decreases |s| - from
  {
    if from + |t| > |s| then -1
    else if s[from..from + |t|] == t then from
    else IndexOf(s, t, from + 1)
  }

  /** A one-character string occurs exactly where that character stands. */
  lemma OccursAtChar(s: string, c: char, i: int)
    ensures OccursAt(s, [c], i) <==> 0 <= i < |s| && s[i] == c
  {
    if 0 <= i < |s| {
      assert s[i..i + 1] == [s[i]];
    }
  }

  /** An occurrence with none before it, from `from` on, is the one `indexOf` finds. */
  lemma IndexOfFirst(s: string, t: string, from: nat, k: nat)
    requires from <= k && OccursAt(s, t, k)
    requires forall i :: from <= i < k ==> !OccursAt(s, t, i)
    ensures IndexOf(s, t, from) == k
  {
  }

  /** The last occurrence of `t` at an index not above `k`, or -1. */
  function LastIndexBefore(s: string, t: string, k: int): (r: int)
    ensures r == -1 || (r <= k && OccursAt(s, t, r))
    ensures forall i :: r < i <= k ==> !OccursAt(s, t, i)
    decreases k + 1
  {
    if k < 0 then -1
    else if OccursAt(s, t, k) then k
    else LastIndexBefore(s, t, k - 1)
  }

  /** `s.lastIndexOf(t)`. */
  function LastIndexOf(s: string, t: string): (r: int)
    ensures r == -1 || OccursAt(s, t, r)
    ensures forall i :: r < i ==> !OccursAt(s, t, i)
  {
    LastIndexBefore(s, t, |s| - |t|)
  }

  /** How `String.prototype.slice` reads one of its arguments. */
  function SliceIndex(len: nat, i: int): (r: nat)
    ensures r <= len
    ensures 0 <= i <= len ==> r == i
  {
    if i < 0 then (if len + i < 0 then 0 else len + i)
    else if i > len then len
    else i
  }

  /** `s.slice(a, b)`, with JavaScript's clamping of negative and large indices. */
  function JsSlice(s: string, a: int, b: int): (r: string)
    ensures 0 <= a <= b <= |s| ==> r == s[a..b]
    ensures |r| <= |s|
  {
    var x, y := SliceIndex(|s|, a), SliceIndex(|s|, b);
    if x < y then s[x..y] else []
  }

  /** Length of the longest run of characters satisfying `p` that starts at `from`. */
  function SpanOf(s: string, p: char -> bool, from: nat): (k: nat)
    requires from <= |s|
    ensures from + k <= |s|
    ensures from + k < |s| ==> !p(s[from + k])
    decreases |s| - from
  {
    if from == |s| || !p(s[from]) then 0 else 1 + SpanOf(s, p, from + 1)
  }

  /** Every character of the run `SpanOf` measures satisfies `p`. */
  lemma {:induction false} SpanOfAll(s: string, p: char -> bool, from: nat)
    requires from <= |s|
    ensures forall i :: from <= i < from + SpanOf(s, p, from) ==> p(s[i])
    decreases |s| - from
  {
    if from < |s| && p(s[from]) {
      SpanOfAll(s, p, from + 1);
    }
  }

  /** Length of the longest run of characters satisfying `p` that ends just before `to`. */
  function BackSpan(s: string, p: char -> bool, to: nat): (k: nat)
    requires to <= |s|
    ensures k <= to
    ensures k < to ==> !p(s[to - k - 1])
  {
    if to == 0 || !p(s[to - 1]) then 0 else 1 + BackSpan(s, p, to - 1)
  }

  /** Every character of the run `BackSpan` measures satisfies `p`. */
  lemma {:induction false} BackSpanAll(s: string, p: char -> bool, to: nat)
    requires to <= |s|
    ensures forall i :: to - BackSpan(s, p, to) <= i < to ==> p(s[i])
  {
    if to > 0 && p(s[to - 1]) {
      BackSpanAll(s, p, to - 1);
    }
  }

  /** A run of `p` characters ended by a non-`p` character or the end is the span `SpanOf` measures. */
  lemma {:induction false} SpanOfExact(s: string, p: char -> bool, from: nat, m: nat)
    requires from + m <= |s|
    requires forall i :: from <= i < from + m ==> p(s[i])
    requires from + m == |s| || !p(s[from + m])
    ensures SpanOf(s, p, from) == m
    decreases m
  {
    if m > 0 {
      SpanOfExact(s, p, from + 1, m - 1);
    }
  }

  /** Unless the whole of `s` satisfies `p`, the leading and trailing runs do not meet. */
  lemma SpansApart(s: string, p: char -> bool)
    ensures SpanOf(s, p, 0) == |s| || SpanOf(s, p, 0) + BackSpan(s, p, |s|) < |s|
  {
    BackSpanAll(s, p, |s|);
  }

  /** `s.trim()`. */
  function JsTrim(s: string): (r: string)
    ensures |r| <= |s|
  {
    var a := SpanOf(s, IsJsSpace, 0);
    var b := BackSpan(s, IsJsSpace, |s|);
    SpansApart(s, IsJsSpace);
    if a == |s| then [] else s[a..|s| - b]
  }

  /**
   * `trim` yields nothing exactly for all-whitespace text; otherwise the
   * slice between the leading and the trailing whitespace, which starts and
   * ends with a non-whitespace character.
   */
  lemma JsTrimSpec(s: string)
    ensures var r := JsTrim(s);
      && (r == [] <==> forall i :: 0 <= i < |s| ==> IsJsSpace(s[i]))
      && (r != [] ==> !IsJsSpace(r[0]) && !IsJsSpace(r[|r| - 1]))
      && (r != [] ==> var a, b := SpanOf(s, IsJsSpace, 0), BackSpan(s, IsJsSpace, |s|);
                      a + b < |s| && r == s[a..|s| - b])
  {
    SpanOfAll(s, IsJsSpace, 0);
    BackSpanAll(s, IsJsSpace, |s|);
    SpansApart(s, IsJsSpace);
  }

  /**
   * `s.replace(/P+/g, ' ')` for the character class `P`: no longer than
   * `s`, and every class character left in it is a space.
   */
  function CollapseRuns(s: string, p: char -> bool): (r: string)
    ensures |r| <= |s|
    ensures forall i :: 0 <= i < |r| && p(r[i]) ==> r[i] == ' '
    decreases |s|
  {
    if s == [] then []
    else if p(s[0]) then [' '] + CollapseRuns(s[SpanOf(s, p, 0)..], p)
    else [s[0]] + CollapseRuns(s[1..], p)
  }

  /** The characters of `s` that do not satisfy `p`, in order. */
  function Strip(s: string, p: char -> bool): string {
    if s == [] then [] else (if p(s[0]) then [] else [s[0]]) + Strip(s[1..], p)
  }

  lemma {:induction false} StripAppend(a: string, b: string, p: char -> bool)
    ensures Strip(a + b, p) == Strip(a, p) + Strip(b, p)
  {
    if a != [] {
      var x := if p(a[0]) then [] else [a[0]];
      assert (a + b)[0] == a[0];
      assert (a + b)[1..] == a[1..] + b;
      StripAppend(a[1..], b, p);
      calc {
        Strip(a + b, p);
        x + Strip(a[1..] + b, p);
        x + (Strip(a[1..], p) + Strip(b, p));
        (x + Strip(a[1..], p)) + Strip(b, p);
      }
    } else {
      assert a + b == b;
    }
  }

  lemma {:induction false} StripOfRun(s: string, p: char -> bool, k: nat)
    requires k <= |s|
    requires forall i :: 0 <= i < k ==> p(s[i])
    ensures Strip(s, p) == Strip(s[k..], p)
  {
    if k > 0 {
      StripOfRun(s[1..], p, k - 1);
      assert s[1..][k - 1..] == s[k..];
    }
  }

  /** Collapsing whitespace runs keeps every other character, in order. */
  lemma {:induction false} CollapseKeepsOthers(s: string, p: char -> bool)
    requires p(' ')
    ensures Strip(CollapseRuns(s, p), p) == Strip(s, p)
    decreases |s|
  {
    if s != [] {
      if p(s[0]) {
        var k := SpanOf(s, p, 0);
        SpanOfAll(s, p, 0);
        StripAppend([' '], CollapseRuns(s[k..], p), p);
        CollapseKeepsOthers(s[k..], p);
        StripOfRun(s, p, k);
      } else {
        StripAppend([s[0]], CollapseRuns(s[1..], p), p);
        CollapseKeepsOthers(s[1..], p);
      }
    }
  }

  lemma {:induction false} CollapseStartsWith(s: string, p: char -> bool)
    requires s != [] && !p(s[0])
    ensures CollapseRuns(s, p) != [] && CollapseRuns(s, p)[0] == s[0]
  {
  }

  /** No two characters satisfying `p` stand side by side in `r`. */
  predicate NoAdjacent(r: string, p: char -> bool) {
    forall i :: 0 <= i < |r| - 1 ==> !(p(r[i]) && p(r[i + 1]))
  }

  /** After collapsing, no two characters of the class stand side by side. */
  lemma {:induction false} CollapseNoAdjacent(s: string, p: char -> bool)
    requires p(' ')
    ensures NoAdjacent(CollapseRuns(s, p), p)
    decreases |s|
  {
    if s != [] {
      if p(s[0]) {
        var k := SpanOf(s, p, 0);
        CollapseNoAdjacent(s[k..], p);
        if k < |s| {
          CollapseStartsWith(s[k..], p);
        }
      } else {
        var t := CollapseRuns(s[1..], p);
        var r := CollapseRuns(s, p);
        assert r == [s[0]] + t;
        CollapseNoAdjacent(s[1..], p);
        forall i | 1 <= i < |r| - 1 ensures !(p(r[i]) && p(r[i + 1])) {
          assert r[i] == t[i - 1] && r[i + 1] == t[i];
          assert !(p(t[i - 1]) && p(t[i]));
        }
      }
    }
  }

  /** A non-empty run made only of the class collapses to a single space. */
  lemma {:induction false} CollapseAllSpace(s: string, p: char -> bool)
    requires s != [] && forall i :: 0 <= i < |s| ==> p(s[i])
    ensures CollapseRuns(s, p) == " "
  {
    var k := SpanOf(s, p, 0);
    assert k == |s|;
  }

  /**
   * The replacement read one character at a time: a class character is
   * written as one space when it starts a run and dropped when it continues
   * one (`afterRun`); every other character is kept.
   */
  function SquashRuns(s: string, p: char -> bool, afterRun: bool): string
    decreases |s|
  {
    if s == [] then []
    else (if !p(s[0]) then [s[0]] else if afterRun then [] else [' ']) + SquashRuns(s[1..], p, p(s[0]))
  }

  /** Inside a run, the rest of the run writes nothing. */
  lemma {:induction false} SquashSkipsRun(s: string, p: char -> bool, k: nat)
    requires k <= |s| && forall i :: 0 <= i < k ==> p(s[i])
    ensures SquashRuns(s, p, true) == SquashRuns(s[k..], p, true)
    decreases k
  {
    if k > 0 {
      SquashSkipsRun(s[1..], p, k - 1);
      assert s[1..][k - 1..] == s[k..];
    }
  }

  /** Replacing each maximal run by a space is the character-by-character reading. */
  lemma {:induction false} CollapseIsSquash(s: string, p: char -> bool)
    ensures CollapseRuns(s, p) == SquashRuns(s, p, false)
    decreases |s|
  {
    if s != [] {
      if p(s[0]) {
        var k := SpanOf(s, p, 0);
        SpanOfAll(s, p, 0);
        CollapseIsSquash(s[k..], p);
        SquashSkipsRun(s[1..], p, k - 1);
        assert s[1..][k - 1..] == s[k..];
        assert s[k..] == [] || !p(s[k..][0]);
      } else {
        CollapseIsSquash(s[1..], p);
      }
    }
  }

  /** The first index from `i` on that holds a class character, or the length. */
  function RunEnd(s: string, p: char -> bool, i: nat): (k: nat)
    requires i <= |s|
    ensures i <= k <= |s|
    ensures forall j :: i <= j < k ==> !p(s[j])
    ensures k == |s| || p(s[k])
    decreases |s| - i
  {
    if i == |s| || p(s[i]) then i else RunEnd(s, p, i + 1)
  }

  /** The maximal runs of characters outside the class, in order: the words of `s`. */
  function Words(s: string, p: char -> bool): seq<string>
    decreases |s|
  {
    if s == [] then []
    else if p(s[0]) then Words(s[1..], p)
    else
      var k := RunEnd(s, p, 0);
      [s[..k]] + Words(s[k..], p)
  }

  /** Words joined by single spaces. */
  function Unwords(ws: seq<string>): string {
    if ws == [] then [] else if |ws| == 1 then ws[0] else ws[0] + " " + Unwords(ws[1..])
  }

  /** A string is what comes before its `k`-th character, that character, and what follows. */
  lemma SplitAround(s: string, k: nat)
    requires k < |s|
    ensures s == s[..k] + [s[k]] + s[k + 1..]
  {
  }

  /** A string that starts outside the class has a first word. */
  lemma WordsNonEmpty(s: string, p: char -> bool)
    requires s != [] && !p(s[0])
    ensures Words(s, p) != []
  {
    var k := RunEnd(s, p, 0);
    assert Words(s, p) == [s[..k]] + Words(s[k..], p);
  }

  /** A word put before at least one other is joined to them by a single space. */
  lemma UnwordsCons(w: string, ws: seq<string>)
    requires ws != []
    ensures Unwords([w] + ws) == w + " " + Unwords(ws)
  {
    assert ([w] + ws)[1..] == ws;
  }

  /** Leading class characters do not change the words. */
  lemma {:induction false} WordsSkip(s: string, p: char -> bool, k: nat)
    requires k <= |s| && forall i :: 0 <= i < k ==> p(s[i])
    ensures Words(s, p) == Words(s[k..], p)
    decreases k
  {
    if k > 0 {
      WordsSkip(s[1..], p, k - 1);
      assert s[1..][k - 1..] == s[k..];
    }
  }

  /** A whole word followed by nothing or by a class character is the first word. */
  lemma WordsCons(w: string, x: string, p: char -> bool)
    requires w != [] && forall i :: 0 <= i < |w| ==> !p(w[i])
    requires x == [] || p(x[0])
    ensures Words(w + x, p) == [w] + Words(x, p)
  {
    var s := w + x;
    var k := RunEnd(s, p, 0);
    assert forall j :: 0 <= j < |w| ==> s[j] == w[j];
    assert x != [] ==> s[|w|] == x[0];
    assert k == |w|;
    assert s[..k] == w && s[k..] == x;
  }

  /** Trailing class characters do not change the words. */
  lemma {:induction false} WordsDropTail(m: string, t: string, p: char -> bool)
    requires forall i :: 0 <= i < |t| ==> p(t[i])
    ensures Words(m + t, p) == Words(m, p)
    decreases |m|
  {
    var s := m + t;
    if m == [] {
      assert s == t;
      WordsSkip(t, p, |t|);
      assert t[|t|..] == [];
    } else if p(m[0]) {
      assert s[0] == m[0] && s[1..] == m[1..] + t;
      WordsDropTail(m[1..], t, p);
    } else {
      var k := RunEnd(m, p, 0);
      var K := RunEnd(s, p, 0);
      assert s[0] == m[0];
      assert forall j :: 0 <= j < |m| ==> s[j] == m[j];
      if k < |m| {
        assert p(s[k]);
      } else if t != [] {
        assert s[k] == t[0];
      }
      assert K == k;
      assert s[..k] == m[..k] && s[k..] == m[k..] + t;
      WordsDropTail(m[k..], t, p);
    }
  }

  /** A word followed by a run of characters outside the class collapses to itself. */
  lemma {:induction false} CollapseWord(s: string, p: char -> bool, k: nat)
    requires k <= |s| && forall j :: 0 <= j < k ==> !p(s[j])
    ensures CollapseRuns(s, p) == s[..k] + CollapseRuns(s[k..], p)
    decreases k
  {
    if k > 0 {
      CollapseWord(s[1..], p, k - 1);
      assert s[1..][k - 1..] == s[k..];
      assert s[..k] == [s[0]] + s[1..][..k - 1];
    }
  }

  /** Collapsing runs keeps the words of `s`, in order, when the space is in the class. */
  lemma {:induction false} CollapseKeepsWords(s: string, p: char -> bool)
    requires p(' ')
    ensures Words(CollapseRuns(s, p), p) == Words(s, p)
    decreases |s|
  {
    if s != [] {
      if p(s[0]) {
        var k := SpanOf(s, p, 0);
        SpanOfAll(s, p, 0);
        CollapseKeepsWords(s[k..], p);
        var c := CollapseRuns(s, p);
        assert c == [' '] + CollapseRuns(s[k..], p);
        assert c[1..] == CollapseRuns(s[k..], p);
        WordsSkip(s, p, k);
      } else {
        var k := RunEnd(s, p, 0);
        CollapseWord(s, p, k);
        CollapseKeepsWords(s[k..], p);
        var rest := CollapseRuns(s[k..], p);
        if s[k..] != [] {
          assert p(s[k..][0]);
          assert rest[0] == ' ';
        }
        WordsCons(s[..k], rest, p);
      }
    }
  }

  /** `s.replace(/\r\n/g, '\n')`. */
  function ReplaceCrlf(s: string): (r: string)
    ensures |r| <= |s|
  {
    if s == [] then []
    else if StartsWith(s, "\r\n") then "\n" + ReplaceCrlf(s[2..])
    else [s[0]] + ReplaceCrlf(s[1..])
  }

  /** Normalising CRLF only ever drops carriage returns. */
  lemma {:induction false} ReplaceCrlfDropsOnlyCr(s: string)
    ensures Strip(ReplaceCrlf(s), IsCarriageReturn) == Strip(s, IsCarriageReturn)
  {
    if s != [] {
      if StartsWith(s, "\r\n") {
        StripAppend("\n", ReplaceCrlf(s[2..]), IsCarriageReturn);
        ReplaceCrlfDropsOnlyCr(s[2..]);
        assert s == "\r\n" + s[2..];
        StripAppend("\r\n", s[2..], IsCarriageReturn);
      } else {
        StripAppend([s[0]], ReplaceCrlf(s[1..]), IsCarriageReturn);
        ReplaceCrlfDropsOnlyCr(s[1..]);
      }
    }
  }

  /** `s.replace(/^\r?\n/, '')`. */
  function StripLeadingNewline(s: string): (r: string)
    ensures StartsWith(s, "\r\n") ==> r == s[2..]
    ensures !StartsWith(s, "\r\n") && StartsWith(s, "\n") ==> r == s[1..]
    ensures !StartsWith(s, "\r\n") && !StartsWith(s, "\n") ==> r == s
  {
    if StartsWith(s, "\r\n") then s[2..] else if StartsWith(s, "\n") then s[1..] else s
  }

  /** `s.split('.')`. */
  function SplitDots(s: string): (r: seq<string>)
    ensures |r| >= 1
    decreases |s|
  {
    var k := SpanOf(s, NotDot, 0);
    if k == |s| then [s] else [s[..k]] + SplitDots(s[k + 1..])
  }

  /** `.m1.m2...`: each segment preceded by a dot. */
  function JoinDotted(ms: seq<string>): string {
    if ms == [] then [] else "." + ms[0] + JoinDotted(ms[1..])
  }

  predicate DotFree(m: string) {
    forall i :: 0 <= i < |m| ==> m[i] != '.'
  }

  /** Splitting on dots undoes joining dot-free segments. */
  lemma {:induction false} SplitJoin(ms: seq<string>)
    requires ms != []
    requires forall j :: 0 <= j < |ms| ==> DotFree(ms[j])
    ensures SplitDots(JoinDotted(ms)[1..]) == ms
  {
    var rest := JoinDotted(ms[1..]);
    assert JoinDotted(ms)[1..] == ms[0] + rest;
    if |ms| == 1 {
      assert rest == [];
      SplitDotsHead(ms[0], rest);
    } else {
      assert rest[0] == '.';
      SplitDotsHead(ms[0], rest);
      SplitJoin(ms[1..]);
      assert ms == [ms[0]] + ms[1..];
    }
  }

  /** Splitting a dot-free segment followed by nothing or by a dot. */
  lemma SplitDotsHead(m: string, rest: string)
    requires DotFree(m)
    requires rest == [] || rest[0] == '.'
    ensures SplitDots(m + rest) == if rest == [] then [m] else [m] + SplitDots(rest[1..])
  {
    DotFreeHead(m, rest);
    if rest == [] {
      assert m + rest == m;
    } else {
      assert (m + rest)[|m| + 1..] == rest[1..];
    }
  }

  /** A dot-free segment followed by nothing or by a dot is the first run of non-dots. */
  lemma DotFreeHead(m: string, rest: string)
    requires DotFree(m)
    requires rest == [] || rest[0] == '.'
    ensures SpanOf(m + rest, NotDot, 0) == |m|
    ensures (m + rest)[..|m|] == m && (m + rest)[|m|..] == rest
  {
    var s := m + rest;
    assert forall i :: 0 <= i < |m| ==> s[i] == m[i];
    SpanOfExact(s, NotDot, 0, |m|);
  }

  /** Slicing a suffix is slicing the whole at shifted indices. */
  lemma SliceOfSuffix(s: string, a: nat, b: nat, c: nat)
    requires a <= |s| && b <= c <= |s| - a
    ensures s[a..][b..c] == s[a + b..a + c]
  {
    var x, y := s[a..][b..c], s[a + b..a + c];
    forall i | 0 <= i < c - b ensures x[i] == y[i] {
      assert x[i] == s[a..][b + i] == s[a + b + i];
    }
  }

  /** A slice of a string that occurs at `o` in `s` is the slice of `s` shifted by `o`. */
  lemma SliceInside(s: string, o: nat, t: string, x: nat, y: nat)
    requires o + |t| <= |s| && s[o..o + |t|] == t && x <= y <= |t|
    ensures s[o + x..o + y] == t[x..y]
  {
    forall i | 0 <= i < y - x ensures s[o + x..o + y][i] == t[x..y][i] {
      assert s[o + x + i] == s[o..o + |t|][x + i];
    }
  }

  /** Dropping `a` characters and then `b` more drops `a + b`. */
  lemma DropDrop(s: string, a: nat, b: nat)
    requires a + b <= |s|
    ensures s[a..][b..] == s[a + b..]
  {
    SliceOfSuffix(s, a, b, |s| - a);
  }

  /** Concatenation regroups freely. */
  lemma AppendAssoc<T>(a: seq<T>, b: seq<T>, c: seq<T>)
    ensures a + b + c == a + (b + c)
  {
  }

  lemma AppendHeadTail<T>(a: seq<T>, b: seq<T>)
    requires a != []
    ensures a + b != [] && (a + b)[0] == a[0] && (a + b)[1..] == a[1..] + b
  {
  }
}
