/**
 * Source positions and locations. Every AST node carries a location whose
 * `source` is a slice of the ORIGINAL template, never of the unread rest.
 */
module Positions {
  import opened Chars

  /** 1-based line and column, 0-based character offset into the template. */
  datatype Position = Position(line: int, column: int, offset: int)

  datatype SourceLocation = SourceLocation(start: Position, end: Position, source: string)

  /** Number of line feeds among the first `n` characters of `s`; indices past `s` hold none. */
  function NewlineCount(s: string, n: int): nat
    decreases n
  {
    if n <= 0 then 0
    else NewlineCount(s, n - 1) + (if n - 1 < |s| && s[n - 1] == '\n' then 1 else 0)
  }

  /** Index of the last line feed among the first `n` characters of `s`, or -1. */
  function LastNewline(s: string, n: int): (r: int)
    ensures r == -1 || (0 <= r < n && r < |s| && s[r] == '\n')
    ensures r == -1 <==> NewlineCount(s, n) == 0
    decreases n
  {
    if n <= 0 then -1
    else if n - 1 < |s| && s[n - 1] == '\n' then n - 1
    else LastNewline(s, n - 1)
  }

  /**
   * Moves `p` over the first `n` characters of `s`: the offset grows by `n`,
   * the line by the number of line feeds, and the column restarts after the
   * last line feed (utils.ts, which holds this rule, is not part of this model).
   */
  function AdvancePosition(p: Position, s: string, n: int): (q: Position)
    ensures q.offset == p.offset + n
    ensures NewlineCount(s, n) == 0 ==> q.line == p.line && q.column == p.column + n
  {
    var last := LastNewline(s, n);
    Position(p.line + NewlineCount(s, n), if last == -1 then p.column + n else n - last, p.offset + n)
  }

  lemma {:induction false} NewlineCountSplit(s: string, a: nat, b: nat)
    requires a + b <= |s|
    ensures NewlineCount(s, a + b) == NewlineCount(s, a) + NewlineCount(s[a..], b)
    decreases b
  {
    if b > 0 {
      NewlineCountSplit(s, a, b - 1);
      assert s[a..][b - 1] == s[a + b - 1];
    }
  }

  lemma {:induction false} LastNewlineSplit(s: string, a: nat, b: nat)
    requires a + b <= |s|
    ensures LastNewline(s[a..], b) != -1 ==> LastNewline(s, a + b) == a + LastNewline(s[a..], b)
    ensures LastNewline(s[a..], b) == -1 ==> LastNewline(s, a + b) == LastNewline(s, a)
    decreases b
  {
    if b > 0 {
      LastNewlineSplit(s, a, b - 1);
      assert s[a..][b - 1] == s[a + b - 1];
    }
  }

  /** Advancing over `a` and then over the next `b` characters is one advance over `a + b`. */
  lemma AdvanceCompose(p: Position, s: string, a: nat, b: nat)
    requires a + b <= |s|
    ensures AdvancePosition(AdvancePosition(p, s, a), s[a..], b) == AdvancePosition(p, s, a + b)
  {
    NewlineCountSplit(s, a, b);
    LastNewlineSplit(s, a, b);
  }

  /** `loc` is well formed: its source is exactly the slice of `orig` between its offsets. */
  ghost predicate LocOk(loc: SourceLocation, orig: string) {
    0 <= loc.start.offset <= loc.end.offset <= |orig|
    && loc.source == orig[loc.start.offset..loc.end.offset]
  }

  /**
   * The pure part of `getSelection`: the location from `start` to `end`, its
   * source sliced from the original template with JavaScript's `slice`.
   */
  function Selection(orig: string, start: Position, end: Position): (loc: SourceLocation)
    ensures loc.start == start && loc.end == end
    ensures 0 <= start.offset <= end.offset <= |orig| ==> LocOk(loc, orig)
    ensures |loc.source| <= |orig|
  {
    SourceLocation(start, end, JsSlice(orig, start.offset, end.offset))
  }

  /** Two well-formed locations that meet join into one well-formed location. */
  lemma {:induction false} LocJoin(a: SourceLocation, b: SourceLocation, orig: string)
    requires LocOk(a, orig) && LocOk(b, orig)
    requires a.end.offset == b.start.offset
    ensures LocOk(SourceLocation(a.start, b.end, a.source + b.source), orig)
  {
    var i, j, k := a.start.offset, a.end.offset, b.end.offset;
    assert orig[i..k] == orig[i..j] + orig[j..k];
  }
}
