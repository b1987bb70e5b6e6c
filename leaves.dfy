/**
 * The leaf scanners of the parser: text, comments, bogus comments and
 * interpolations. Each consumes a prefix of the unread rest and returns a
 * node whose location covers exactly the consumed characters.
 */
module Leaves {
  import opened Wrappers
  import opened Chars
  import opened Positions
  import opened Ast
  import opened Entities
  import opened Context

  /** The text `parseTextData` returns for `raw`: decoded unless the mode is raw or `raw` has no `&`. */
  function DecodeText(raw: string, mode: TextMode, decode: (string, bool) -> string): (r: string)
    ensures '&' !in raw ==> r == raw
    ensures decode == DefaultDecodeEntities ==> |r| <= |raw|
  {
    if mode.RawText? || mode.CData? || '&' !in raw then raw else decode(raw, mode.AttributeValue?)
  }

  /** With the default decoder, the text of every mode that decodes reads escaped text back exactly. */
  lemma DecodeTextEscape(s: string, mode: TextMode)
    requires !mode.RawText? && !mode.CData?
    ensures DecodeText(Escape(s), mode, DefaultDecodeEntities) == s
  {
    DecodeEscape(s);
  }

  /** In the raw modes the text is taken verbatim, whatever it contains. */
  lemma DecodeTextRaw(raw: string, mode: TextMode, decode: (string, bool) -> string)
    requires mode.RawText? || mode.CData?
    ensures DecodeText(raw, mode, decode) == raw
  {
  }

  /**
   * `parseTextData`: consumes `length` characters and returns them, decoded
   * by the `decodeEntities` option when the mode asks for it.
   */
  method ParseTextData(ctx: ParserContext, length: int, mode: TextMode) returns (content: string)
    requires ctx.Valid() && 0 <= length <= |ctx.source|
    modifies ctx`source, ctx`offset, ctx`line, ctx`column
    ensures ctx.Valid()
    ensures ctx.offset == old(ctx.offset) + length
    ensures ctx.Cursor() == AdvancePosition(old(ctx.Cursor()), old(ctx.source), length)
    ensures content == DecodeText(old(ctx.source)[..length], mode, ctx.options.decodeEntities)
  {
    var rawText := ctx.source[..length];
    ctx.AdvanceBy(length);
    if mode.RawText? || mode.CData? || '&' !in rawText {
      content := rawText;
    } else {
      content := ctx.options.decodeEntities(rawText, mode.AttributeValue?);
    }
  }

  /** The strings that end a text node: `]]>` in CDATA, otherwise `<` and the open delimiter. */
  function EndTokens(mode: TextMode, openDelimiter: string): (ts: seq<string>)
    ensures mode.CData? ==> ts == ["]]>"]
    ensures !mode.CData? ==> ts == ["<", openDelimiter]
  {
    if mode.CData? then ["]]>"] else ["<", openDelimiter]
  }

  /** The earliest index from 1 on at which one of `tokens` occurs, or `|s|`. */
  function EarliestEnd(s: string, tokens: seq<string>): (r: nat)
    requires |s| >= 1
    ensures 1 <= r <= |s|
  {
    if tokens == [] then |s|
    else
      var e := EarliestEnd(s, tokens[..|tokens| - 1]);
      var i := IndexOf(s, tokens[|tokens| - 1], 1);
      if i != -1 && e > i then i else e
  }

  /**
   * A text node ends at the first index from 1 on where a terminator occurs,
   * or at the end: it is never empty, and no terminator starts inside it.
   */
  lemma {:induction false} EarliestEndSpec(s: string, tokens: seq<string>)
    requires |s| >= 1
    ensures 1 <= EarliestEnd(s, tokens) <= |s|
    ensures forall j, i :: 0 <= j < |tokens| && 1 <= i < EarliestEnd(s, tokens) ==> !OccursAt(s, tokens[j], i)
    ensures EarliestEnd(s, tokens) < |s| ==> exists j :: 0 <= j < |tokens| && OccursAt(s, tokens[j], EarliestEnd(s, tokens))
  {
    if tokens != [] {
      var front := tokens[..|tokens| - 1];
      EarliestEndSpec(s, front);
      var t := tokens[|tokens| - 1];
      var e := EarliestEnd(s, front);
      var i := IndexOf(s, t, 1);
      var r := EarliestEnd(s, tokens);
      forall j, k | 0 <= j < |tokens| && 1 <= k < r ensures !OccursAt(s, tokens[j], k) {
        if j < |tokens| - 1 {
          assert tokens[j] == front[j];
        }
      }
      if r < |s| {
        if r == i {
          assert OccursAt(s, tokens[|tokens| - 1], r);
        } else {
          var j :| 0 <= j < |front| && OccursAt(s, front[j], e);
          assert tokens[j] == front[j];
        }
      }
    }
  }

  /**
   * `parseText`: the text up to (not including) the earliest terminator
   * found from index 1 on, or the whole rest. At least one character is
   * consumed, and the node's location covers exactly what was consumed.
   */
  method ParseText(ctx: ParserContext, mode: TextMode) returns (node: Node)
    requires ctx.Valid() && |ctx.source| > 0
    modifies ctx`source, ctx`offset, ctx`line, ctx`column
    ensures ctx.Valid()
    ensures var k := EarliestEnd(old(ctx.source), EndTokens(mode, ctx.options.openDelimiter));
      && ctx.offset == old(ctx.offset) + k
      && node == Text(DecodeText(old(ctx.source)[..k], mode, ctx.options.decodeEntities),
                      Selection(ctx.originalSource, old(ctx.Cursor()), ctx.Cursor()))
    ensures old(ctx.offset) < ctx.offset
    ensures LocOk(node.loc, ctx.originalSource)
    ensures node.loc.start.offset == old(ctx.offset) && node.loc.end.offset == ctx.offset
  {
    var endTokens := EndTokens(mode, ctx.options.openDelimiter);
    var s := ctx.source;
    var endIndex := |s|;
    for i := 0 to |endTokens|
      invariant endIndex == EarliestEnd(s, endTokens[..i])
    {
      assert endTokens[..i + 1][..i] == endTokens[..i];
      var index := IndexOf(s, endTokens[i], 1);
      if index != -1 && endIndex > index {
        endIndex := index;
      }
    }
    assert endTokens[..|endTokens|] == endTokens;
    EarliestEndSpec(s, endTokens);
    var start := ctx.Cursor();
    var content := ParseTextData(ctx, endIndex, mode);
    node := Text(content, ctx.GetSelection(start, None));
  }

  /** `--` then an optional `!` then `>` starts at `i`: the closers `-->` and `--!>`. */
  predicate CloseAt(s: string, i: int) {
    OccursAt(s, "-->", i) || OccursAt(s, "--!>", i)
  }

  /** The leftmost index from `from` on where a comment closer starts, or -1. */
  function FindClose(s: string, from: nat): (r: int)
    requires from <= |s|
    ensures r == -1 || (from <= r < |s| && CloseAt(s, r))
    ensures forall i :: from <= i < |s| && (r == -1 || i < r) ==> !CloseAt(s, i)
    decreases |s| - from
  {
    if from == |s| then -1
    else if CloseAt(s, from) then from
    else FindClose(s, from + 1)
  }

  /** The number of `<!--` starting in `[from, |s|)` whose four characters end before `|s|`. */
  function NestedCount(s: string, from: nat): nat
    decreases |s| - from
  {
    if from >= |s| then 0
    else (if OccursAt(s, "<!--", from) && from + 4 < |s| then 1 else 0) + NestedCount(s, from + 1)
  }

  lemma {:induction false} NestedCountSkip(s: string, from: nat, to: nat)
    requires from <= to <= |s|
    requires forall i :: from <= i < to ==> !OccursAt(s, "<!--", i)
    ensures NestedCount(s, from) == NestedCount(s, to)
    decreases (to as int) - (from as int)
  {
    if from < to {
      NestedCountSkip(s, from + 1, to);
    }
  }

  /** The diagnostics `parseComment` emits for `s`, in the order it emits them. */
  function CommentErrors(s: string): (r: seq<ErrorCode>)
    requires StartsWith(s, "<!--")
    ensures FindClose(s, 0) == -1 ==> r == [EofInComment]
    ensures FindClose(s, 0) != -1 ==> EofInComment !in r
    ensures IncorrectlyClosedComment in r <==> FindClose(s, 0) != -1 && OccursAt(s, "--!>", FindClose(s, 0))
    ensures AbruptClosingOfEmptyComment in r <==> FindClose(s, 0) != -1 && FindClose(s, 0) <= 3
  {
    var index := FindClose(s, 0);
    if index == -1 then [EofInComment]
    else
      (if index <= 3 then [AbruptClosingOfEmptyComment] else [])
      + (if OccursAt(s, "--!>", index) then [IncorrectlyClosedComment] else [])
      + Repeat(NestedComment, NestedCount(s[..index], 1))
  }

  /** How many characters `parseComment` consumes: through the first closer, or everything. */
  function CommentLength(s: string): (n: nat)
    requires StartsWith(s, "<!--")
    ensures n <= |s|
    ensures FindClose(s, 0) == -1 ==> n == |s|
    ensures FindClose(s, 0) != -1 ==> CloseAt(s, n - 3) || CloseAt(s, n - 4)
  {
    var index := FindClose(s, 0);
    if index == -1 then |s| else index + (if OccursAt(s, "--!>", index) then 4 else 3)
  }

  /**
   * `parseComment`: consumes through the first `-->` or `--!>` (everything
   * when there is none), steps over nested `<!--` one at a time, and reports
   * an empty-comment closer, a `--!>` closer, nested openers and an
   * unterminated comment.
   */
  method ParseComment(ctx: ParserContext) returns (node: Node)
    requires ctx.Valid() && StartsWith(ctx.source, "<!--")
    modifies ctx`source, ctx`offset, ctx`line, ctx`column, ctx`errors
    ensures ctx.Valid()
    ensures ctx.offset == old(ctx.offset) + CommentLength(old(ctx.source))
    ensures ctx.errors == old(ctx.errors) + CommentErrors(old(ctx.source))
    ensures var index := FindClose(old(ctx.source), 0);
      node.Comment? && node.content == (if index == -1 then old(ctx.source)[4..] else JsSlice(old(ctx.source), 4, index))
    ensures old(ctx.offset) + 4 <= ctx.offset
    ensures LocOk(node.loc, ctx.originalSource)
    ensures node.loc.start.offset == old(ctx.offset) && node.loc.end.offset == ctx.offset
  {
    var start := ctx.Cursor();
    var s0 := ctx.source;
    var content: string;
    var index := FindClose(s0, 0);
    if index == -1 {
      content := s0[4..];
      ctx.AdvanceBy(|ctx.source|);
      ctx.EmitError(EofInComment);
    } else {
      content := JsSlice(s0, 4, index);
      ConsumeClosedComment(ctx, index);
    }
    node := Comment(content, ctx.GetSelection(start, None));
  }

  /** The part of `parseComment` after a closer was found at `index`: diagnostics, then consumption through the closer. */
  method ConsumeClosedComment(ctx: ParserContext, index: int)
    requires ctx.Valid() && StartsWith(ctx.source, "<!--") && index == FindClose(ctx.source, 0) != -1
    modifies ctx`source, ctx`offset, ctx`line, ctx`column, ctx`errors
    ensures ctx.Valid()
    ensures ctx.offset == old(ctx.offset) + CommentLength(old(ctx.source)) >= old(ctx.offset) + 5
    ensures ctx.errors == old(ctx.errors) + CommentErrors(old(ctx.source))
  {
    var s0 := ctx.source;
    ghost var o0, e0 := ctx.offset, ctx.errors;
    ClosedCommentParts(s0);
    var bang := OccursAt(s0, "--!>", index);
    var closeLength := if bang then 4 else 3;
    if index <= 3 {
      ctx.EmitError(AbruptClosingOfEmptyComment);
    }
    ghost var e1 := ctx.errors;
    if bang {
      ctx.EmitError(IncorrectlyClosedComment);
    }
    ghost var e2 := ctx.errors;
    var prevIndex := AdvanceOverNested(ctx, s0[..index]);
    ghost var o3, e3 := ctx.offset, ctx.errors;
    ctx.AdvanceBy(index + closeLength - prevIndex + 1);
    ClosedCommentSteps(s0, index, bang, e0, e1, e2, e3, o0, o3, prevIndex);
  }

  /** The diagnostics and the consumption of a closed comment, put together from the steps of `ConsumeClosedComment`. */
  lemma ClosedCommentSteps(s0: string, index: int, bang: bool, e0: seq<ErrorCode>, e1: seq<ErrorCode>,
                           e2: seq<ErrorCode>, e3: seq<ErrorCode>, o0: int, o3: int, prevIndex: int)
    requires StartsWith(s0, "<!--") && index == FindClose(s0, 0) != -1 && bang == OccursAt(s0, "--!>", index)
    requires e1 == e0 + (if index <= 3 then [AbruptClosingOfEmptyComment] else [])
    requires e2 == e1 + (if bang then [IncorrectlyClosedComment] else [])
    requires e3 == e2 + Repeat(NestedComment, NestedCount(s0[..index], 1))
    requires o3 == o0 + prevIndex - 1
    ensures e3 == e0 + CommentErrors(s0)
    ensures o3 + (index + (if bang then 4 else 3) - prevIndex + 1) == o0 + CommentLength(s0) >= o0 + 5
  {
    ClosedCommentParts(s0);
    var a := if index <= 3 then [AbruptClosingOfEmptyComment] else [];
    var b := if bang then [IncorrectlyClosedComment] else [];
    AppendAssoc(e0, a, b);
    AppendAssoc(e0, a + b, Repeat(NestedComment, NestedCount(s0[..index], 1)));
  }

  /** What `parseComment` does once a closer is found: the closer lies after `<!`, and the diagnostics and length split by the closer's kind. */
  lemma ClosedCommentParts(s: string)
    requires StartsWith(s, "<!--") && FindClose(s, 0) != -1
    ensures var index := FindClose(s, 0);
            var bang := OccursAt(s, "--!>", index);
      && 2 <= index
      && CommentLength(s) == index + (if bang then 4 else 3)
      && CommentErrors(s) == (if index <= 3 then [AbruptClosingOfEmptyComment] else [])
                            + (if bang then [IncorrectlyClosedComment] else [])
                            + Repeat(NestedComment, NestedCount(s[..FindClose(s, 0)], 1))
  {
    assert !CloseAt(s, 0) && !CloseAt(s, 1) by {
      assert s[..4][0] == '<' && s[..4][1] == '!';
      assert s[0..3][0] == '<' && s[0..4][0] == '<';
      assert s[1..4][0] == '!' && (|s| >= 5 ==> s[1..5][0] == '!');
    }
  }

  /**
   * The loop of `parseComment` over the text before the closer: each nested
   * `<!--` is stepped over up to its `!`, and reported when its four
   * characters end before the closer.
   */
  method AdvanceOverNested(ctx: ParserContext, s: string) returns (prevIndex: int)
    requires ctx.Valid() && 1 <= |s| <= |ctx.source|
    modifies ctx`source, ctx`offset, ctx`line, ctx`column, ctx`errors
    ensures ctx.Valid()
    ensures 1 <= prevIndex <= |s|
    ensures ctx.offset == old(ctx.offset) + prevIndex - 1
    ensures ctx.errors == old(ctx.errors) + Repeat(NestedComment, NestedCount(s, 1))
  {
    ghost var s0 := ctx.source;
    ghost var emitted := 0;
    prevIndex := 1;
    while true
      invariant ctx.Valid()
      invariant 1 <= prevIndex <= |s|
      invariant ctx.offset == old(ctx.offset) + prevIndex - 1
      invariant emitted + NestedCount(s, prevIndex) == NestedCount(s, 1)
      invariant ctx.errors == old(ctx.errors) + Repeat(NestedComment, emitted)
      decreases |s| - prevIndex
    {
      var nestedIndex := IndexOf(s, "<!--", prevIndex);
      if nestedIndex == -1 {
        NestedCountSkip(s, prevIndex, |s|);
        break;
      }
      NestedCountStep(s, prevIndex, nestedIndex);
      ctx.AdvanceBy(nestedIndex - prevIndex + 1);
      if nestedIndex + 4 < |s| {
        ctx.EmitError(NestedComment);
        AppendAssoc(old(ctx.errors), Repeat(NestedComment, emitted), [NestedComment]);
        emitted := emitted + 1;
      }
      prevIndex := nestedIndex + 1;
    }
  }

  /** From `from`, the count is that of the next opener found by `indexOf` plus the count after it. */
  lemma NestedCountStep(s: string, from: nat, next: int)
    requires from <= |s| && next == IndexOf(s, "<!--", from) && next != -1
    ensures NestedCount(s, from) == (if next + 4 < |s| then 1 else 0) + NestedCount(s, next + 1)
  {
    NestedCountSkip(s, from, next);
    assert OccursAt(s, "<!--", next);
  }

  /**
   * `parseBogusComment`: everything up to the first `>` (or the end) becomes
   * a comment whose content starts after `<?`'s `<` or after `<!` / `</`.
   */
  method ParseBogusComment(ctx: ParserContext) returns (node: Node)
    requires ctx.Valid() && |ctx.source| >= 2 && ctx.source[0] == '<'
    modifies ctx`source, ctx`offset, ctx`line, ctx`column
    ensures ctx.Valid()
    ensures var s := old(ctx.source);
            var close := IndexOf(s, ">", 0);
            var contentStart := if s[1] == '?' then 1 else 2;
      && ctx.offset == old(ctx.offset) + (if close == -1 then |s| else close + 1)
      && node.Comment?
      && node.content == (if close == -1 then JsSlice(s, contentStart, |s|) else JsSlice(s, contentStart, close))
    ensures old(ctx.offset) < ctx.offset
    ensures LocOk(node.loc, ctx.originalSource)
    ensures node.loc.start.offset == old(ctx.offset) && node.loc.end.offset == ctx.offset
  {
    var start := ctx.Cursor();
    var contentStart := if ctx.source[1] == '?' then 1 else 2;
    var content: string;
    var closeIndex := IndexOf(ctx.source, ">", 0);
    if closeIndex == -1 {
      content := JsSlice(ctx.source, contentStart, |ctx.source|);
      ctx.AdvanceBy(|ctx.source|);
    } else {
      content := JsSlice(ctx.source, contentStart, closeIndex);
      ctx.AdvanceBy(closeIndex + 1);
    }
    node := Comment(content, ctx.GetSelection(start, None));
  }

  /**
   * How many characters `parseInterpolation` consumes from `s`, which
   * starts with the open delimiter: through the first close delimiter after
   * it, or none when there is no close delimiter.
   */
  function InterpolationLength(s: string, open: string, close: string): (k: nat)
    requires |open| <= |s|
    ensures k <= |s|
    ensures k > 0 ==> |open| + |close| <= k
    ensures k == 0 <==> IndexOf(s, close, |open|) == -1 || (open == [] && close == [])
  {
    var i := IndexOf(s, close, |open|);
    if i == -1 then 0 else i + |close|
  }

  /**
   * As written, with both delimiters empty every input opens an
   * interpolation whose close is found at once, and it consumes nothing:
   * the loop of `parseChildren` then never advances.
   */
  lemma EmptyDelimitersStall(s: string)
    ensures StartsWith(s, "") && IndexOf(s, "", 0) == 0
    ensures InterpolationLength(s, "", "") == 0
  {
    assert s[0..0] == "";
  }

  /** With a delimiter that is not empty, an interpolation that is found consumes at least one character. */
  lemma {:induction false} InterpolationProgress(s: string, open: string, close: string)
    requires open != [] || close != []
    requires |open| <= |s| && IndexOf(s, close, |open|) != -1
    ensures InterpolationLength(s, open, close) >= 1
  {
  }

  /**
   * `parseInterpolation`: from the open delimiter to the first close
   * delimiter after it. Without a close delimiter it reports the missing end
   * and consumes nothing; otherwise the expression is the trimmed inner text
   * and its location the inner text without the surrounding whitespace.
   */
  method ParseInterpolation(ctx: ParserContext, mode: TextMode) returns (node: Option<Node>)
    requires ctx.Valid() && StartsWith(ctx.source, ctx.options.openDelimiter)
    modifies ctx`source, ctx`offset, ctx`line, ctx`column, ctx`errors
    ensures ctx.Valid()
    ensures var open, close := ctx.options.openDelimiter, ctx.options.closeDelimiter;
            var closeIndex := IndexOf(old(ctx.source), close, |open|);
      && (closeIndex == -1 ==> node.None? && ctx.offset == old(ctx.offset) && ctx.errors == old(ctx.errors) + [XMissingInterpolationEnd])
      && (closeIndex != -1 ==> node.Some? && ctx.offset == old(ctx.offset) + closeIndex + |close| && ctx.errors == old(ctx.errors))
    ensures ctx.offset == old(ctx.offset) + InterpolationLength(old(ctx.source), ctx.options.openDelimiter, ctx.options.closeDelimiter)
    ensures node.Some? ==> var raw := old(ctx.source)[|ctx.options.openDelimiter|..IndexOf(old(ctx.source), ctx.options.closeDelimiter, |ctx.options.openDelimiter|)];
      && node.value.Interpolation?
      && node.value.expression.content == JsTrim(DecodeText(raw, mode, ctx.options.decodeEntities))
      && !node.value.expression.isStatic
      && ((mode.RawText? || mode.CData? || '&' !in raw) ==>
            node.value.expression.loc.source == node.value.expression.content
            && LocOk(node.value.expression.loc, ctx.originalSource))
    ensures node.Some? ==> old(ctx.offset) + |ctx.options.openDelimiter| + |ctx.options.closeDelimiter| <= ctx.offset
    ensures node.Some? ==> LocOk(node.value.loc, ctx.originalSource)
    ensures node.Some? ==> node.value.loc.start.offset == old(ctx.offset) && node.value.loc.end.offset == ctx.offset
  {
    var open, close := ctx.options.openDelimiter, ctx.options.closeDelimiter;
    var closeIndex := IndexOf(ctx.source, close, |open|);
    if closeIndex == -1 {
      ctx.EmitError(XMissingInterpolationEnd);
      return None;
    }
    var n := ParseClosedInterpolation(ctx, closeIndex, mode);
    node := Some(n);
  }

  /** An interpolation whose close delimiter starts at `closeIndex`. */
  method ParseClosedInterpolation(ctx: ParserContext, closeIndex: int, mode: TextMode) returns (node: Node)
    requires ctx.Valid() && StartsWith(ctx.source, ctx.options.openDelimiter)
    requires closeIndex == IndexOf(ctx.source, ctx.options.closeDelimiter, |ctx.options.openDelimiter|) != -1
    modifies ctx`source, ctx`offset, ctx`line, ctx`column
    ensures ctx.Valid()
    ensures ctx.offset == old(ctx.offset) + closeIndex + |ctx.options.closeDelimiter|
    ensures var raw := old(ctx.source)[|ctx.options.openDelimiter|..closeIndex];
      && node.Interpolation?
      && node.expression.content == JsTrim(DecodeText(raw, mode, ctx.options.decodeEntities))
      && !node.expression.isStatic
      && ((mode.RawText? || mode.CData? || '&' !in raw) ==>
            node.expression.loc.source == node.expression.content
            && LocOk(node.expression.loc, ctx.originalSource))
    ensures old(ctx.offset) + |ctx.options.openDelimiter| + |ctx.options.closeDelimiter| <= ctx.offset
    ensures LocOk(node.loc, ctx.originalSource)
    ensures node.loc.start.offset == old(ctx.offset) && node.loc.end.offset == ctx.offset
  {
    var open, close := ctx.options.openDelimiter, ctx.options.closeDelimiter;
    ghost var s0 := ctx.source;
    var start := ctx.Cursor();
    ctx.AdvanceBy(|open|);
    ghost var raw := ctx.source[..closeIndex - |open|];
    assert raw == s0[|open|..closeIndex];
    var content, expLoc := ParseInterpolationInner(ctx, closeIndex - |open|, mode, raw);
    ctx.AdvanceBy(|close|);
    node := Interpolation(SimpleExpression(content, false, NotConstant, expLoc), ctx.GetSelection(start, None));
  }

  /**
   * The inner text of an interpolation: `rawContentLength` characters are
   * consumed and decoded, the expression is their trimmed text, and its
   * location spans the offsets `TrimOffsets` finds.
   */
  method ParseInterpolationInner(ctx: ParserContext, rawContentLength: int, mode: TextMode, ghost raw: string)
    returns (content: string, expLoc: SourceLocation)
    requires ctx.Valid() && 0 <= rawContentLength <= |ctx.source| && raw == ctx.source[..rawContentLength]
    modifies ctx`source, ctx`offset, ctx`line, ctx`column
    ensures ctx.Valid()
    ensures ctx.offset == old(ctx.offset) + rawContentLength
    ensures content == JsTrim(DecodeText(raw, mode, ctx.options.decodeEntities))
    ensures var r := TrimOffsets(DecodeText(raw, mode, ctx.options.decodeEntities), rawContentLength);
      && expLoc.start.offset == old(ctx.offset) + r.0
      && expLoc.end.offset == old(ctx.offset) + r.1
      && expLoc.source == JsSlice(ctx.originalSource, expLoc.start.offset, expLoc.end.offset)
    ensures (mode.RawText? || mode.CData? || '&' !in raw) ==>
      expLoc.source == content && LocOk(expLoc, ctx.originalSource)
  {
    ghost var o := ctx.offset;
    var innerStart := ctx.Cursor();
    var innerEnd := ctx.Cursor();
    var rawContent := ctx.source[..rawContentLength];
    var preTrimContent := ParseTextData(ctx, rawContentLength, mode);
    content := JsTrim(preTrimContent);
    var (startOffset, endOffset) := TrimOffsets(preTrimContent, rawContentLength);
    if startOffset > 0 {
      innerStart := AdvancePosition(innerStart, rawContent, startOffset);
    }
    innerEnd := AdvancePosition(innerEnd, rawContent, endOffset);
    expLoc := ctx.GetSelection(innerStart, Some(innerEnd));
    if mode.RawText? || mode.CData? || '&' !in rawContent {
      assert preTrimContent == rawContent;
      assert rawContent == ctx.originalSource[o..][..|rawContent|];
      InterpolationLocExact(ctx.originalSource, o, rawContent, expLoc);
    }
  }

  /**
   * Where the trimmed text starts and ends, counted in the raw inner text:
   * `preTrimContent.indexOf(content)` and the raw length less the trailing
   * whitespace.
   */
  function TrimOffsets(preTrim: string, rawLength: int): (r: (int, int))
    ensures 0 <= r.0
  {
    var content := JsTrim(preTrim);
    var startOffset := IndexOf(preTrim, content, 0);
    TrimmedAt(preTrim);
    (startOffset, rawLength - (|preTrim| - |content| - startOffset))
  }

  /**
   * When nothing was decoded, the expression's location is the inner text
   * with its surrounding whitespace dropped: it is well formed and its source
   * is the trimmed text.
   */
  lemma InterpolationLocExact(orig: string, o: nat, raw: string, loc: SourceLocation)
    requires o + |raw| <= |orig| && raw == orig[o..][..|raw|]
    requires loc.start.offset == o + TrimOffsets(raw, |raw|).0
    requires loc.end.offset == o + TrimOffsets(raw, |raw|).1
    requires loc.source == JsSlice(orig, loc.start.offset, loc.end.offset)
    ensures LocOk(loc, orig) && loc.source == JsTrim(raw)
  {
    var r := TrimOffsets(raw, |raw|);
    TrimOffsetsExact(raw);
    assert raw[r.0..r.1] == orig[o..][r.0..r.1];
    SliceOfSuffix(orig, o, r.0, r.1);
  }

  /** Over the whole raw text, the two offsets delimit exactly the trimmed text. */
  lemma TrimOffsetsExact(s: string)
    ensures var r := TrimOffsets(s, |s|);
      0 <= r.0 <= r.1 <= |s| && s[r.0..r.1] == JsTrim(s)
  {
    TrimmedAt(s);
  }

  /** `s.indexOf(s.trim())` is where the trimmed text starts, and the trimmed text ends where the trailing whitespace begins. */
  lemma TrimmedAt(s: string)
    ensures var t := JsTrim(s);
            var a := IndexOf(s, t, 0);
      && 0 <= a && a + |t| <= |s| && s[a..a + |t|] == t
      && |s| - (|s| - |t| - a) == a + |t|
  {
    var t := JsTrim(s);
    var a := IndexOf(s, t, 0);
    JsTrimSpec(s);
    assert OccursAt(s, t, 0) || t != [];
    if t != [] {
      var k := SpanOf(s, IsJsSpace, 0);
      assert OccursAt(s, t, k);
    }
  }
}
