/**
 * The parser's mutable state: the unread rest of the template and the cursor
 * that every scanner moves forward through `AdvanceBy`.
 */
module Context {
  import opened Wrappers
  import opened Chars
  import opened Positions
  import opened Ast

  /** A line-feed-free stretch of `s`: no `'\n'` among the first `n` characters. */
  lemma {:induction false} NoNewlineCount(s: string, n: int)
    requires forall i :: 0 <= i < n && i < |s| ==> s[i] != '\n'
    ensures NewlineCount(s, n) == 0
    decreases n
  {
    if n > 0 {
      NoNewlineCount(s, n - 1);
    }
  }

  lemma SliceNoNewline(orig: string, a: int, k: int)
    ensures (0 <= a && forall i :: a <= i < a + k && i < |orig| ==> orig[i] != '\n')
            ==> NewlineCount(JsSlice(orig, a, k), k) == 0
  {
    var slice := JsSlice(orig, a, k);
    if 0 <= a && (forall i :: a <= i < a + k && i < |orig| ==> orig[i] != '\n') {
      var x := SliceIndex(|orig|, a);
      var y := SliceIndex(|orig|, k);
      forall i | 0 <= i < k && i < |slice| ensures slice[i] != '\n' {
        assert x < y && slice[i] == orig[x + i];
      }
      NoNewlineCount(slice, k);
    }
  }

  class ParserContext {
    const options: Options
    const originalSource: string
    /** The unread rest of the template. */
    var source: string
    var offset: int
    var line: int
    var column: int
    /** Inside an element `isPreTag` accepts: whitespace is preserved. */
    var inPre: bool
    /** Inside an element carrying `v-pre`: no directives, no interpolations. */
    var inVPre: bool
    /** The diagnostics emitted so far, in order. */
    var errors: seq<ErrorCode>

    /** The unread rest is exactly the original template after `offset`. */
    ghost predicate Valid()
      reads this
    {
      0 <= offset <= |originalSource| && source == originalSource[offset..]
    }

    /** `createParserContext`: the cursor at line 1, column 1, offset 0, nothing read yet. */
    constructor (content: string, options: Options)
      ensures Valid()
      ensures this.options == options && originalSource == content && source == content
      ensures offset == 0 && line == 1 && column == 1
      ensures !inPre && !inVPre && errors == []
    {
      this.options := options;
      originalSource := content;
      source := content;
      offset := 0;
      line := 1;
      column := 1;
      inPre := false;
      inVPre := false;
      errors := [];
    }

    /** `getCursor`: its offset counts the characters consumed so far. */
    function Cursor(): (p: Position)
      reads this
      requires Valid()
      ensures p.offset == |originalSource| - |source|
      ensures p.line == line && p.column == column
    {
      Position(line, column, offset)
    }

    /**
     * `getSelection`: the location from `start` to `end`, or to the cursor
     * when `end` is absent, whose source is sliced from the original template.
     */
    function GetSelection(start: Position, end: Option<Position>): (loc: SourceLocation)
      reads this
      requires Valid()
      ensures loc.start == start
      ensures end.Some? ==> loc.end == end.value
      ensures end.None? ==> loc.end.offset == |originalSource| - |source|
      ensures 0 <= start.offset <= loc.end.offset <= |originalSource| ==> LocOk(loc, originalSource)
    {
      Selection(originalSource, start, if end.Some? then end.value else Cursor())
    }

    /**
     * `getNewPosition`: `start` moved `k` characters forward. The characters it
     * counts line feeds in are `originalSource.slice(start.offset, k)`, with `k`
     * read as an absolute end index, as the source writes it.
     */
    function GetNewPosition(start: Position, k: int): (q: Position)
      reads this
      ensures q.offset == start.offset + k
      ensures (0 <= start.offset && forall i :: start.offset <= i < start.offset + k && i < |originalSource| ==> originalSource[i] != '\n')
              ==> q.line == start.line && q.column == start.column + k
    {
      var slice := JsSlice(originalSource, start.offset, k);
      SliceNoNewline(originalSource, start.offset, k);
      AdvancePosition(start, slice, k)
    }

    /**
     * `advanceBy`: drops the first `n` characters of the unread rest and
     * moves the cursor over them.
     */
    method AdvanceBy(n: int)
      requires Valid() && 0 <= n <= |source|
      modifies this`source, this`offset, this`line, this`column
      ensures Valid()
      ensures source == old(source)[n..]
      ensures offset == old(offset) + n
      ensures Position(line, column, offset) == AdvancePosition(old(Cursor()), old(source), n)
    {
      var p := AdvancePosition(Position(line, column, offset), source, n);
      line, column, offset := p.line, p.column, p.offset;
      source := source[n..];
    }

    /** `advanceSpaces`: skips the leading run of `[\t\r\n\f ]`. */
    method AdvanceSpaces()
      requires Valid()
      modifies this`source, this`offset, this`line, this`column
      ensures Valid()
      ensures source == old(source)[SpanOf(old(source), IsHtmlSpace, 0)..]
      ensures offset == old(offset) + SpanOf(old(source), IsHtmlSpace, 0)
      ensures forall i :: 0 <= i < |old(source)| - |source| ==> IsHtmlSpace(old(source)[i])
      ensures source == [] || !IsHtmlSpace(source[0])
    {
      var k := SpanOf(source, IsHtmlSpace, 0);
      SpanOfAll(source, IsHtmlSpace, 0);
      if k > 0 {
        AdvanceBy(k);
      }
    }

    /** `emitError`: the diagnostic is recorded after those already emitted. */
    method EmitError(code: ErrorCode)
      modifies this`errors
      ensures errors == old(errors) + [code]
    {
      errors := errors + [code];
    }
  }

  /** `last`: the innermost open element, if any. */
  function Last(ancestors: seq<ElementNode>): (r: Option<ElementNode>)
    ensures r.None? <==> ancestors == []
    ensures r.Some? ==> r.value == ancestors[|ancestors| - 1]
  {
    if ancestors == [] then None else Some(ancestors[|ancestors| - 1])
  }
}
