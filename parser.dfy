/**
 * The recursive core of the template parser: `parseChildren` reads sibling
 * nodes until the end condition of its text mode, dispatching on the next
 * characters to interpolations, comments, CDATA, elements and text;
 * `parseElement` reads a start tag, the children and the end tag.
 */
module Parser {
  import opened Wrappers
  import opened Chars
  import opened Positions
  import opened Ast
  import opened Entities
  import opened Context
  import opened Leaves
  import opened Tags
  import opened NodeList

  // ------------------------------------------------------------ end of a list

  /**
   * `startsWithEndTagOpen`: `</`, then the tag name in any ASCII case, then
   * whitespace, `/`, `>` or the end of the input.
   */
  predicate StartsWithEndTagOpen(source: string, tag: string)
    ensures StartsWithEndTagOpen(source, tag) ==> 2 + |tag| <= |source| && StartsWith(source, "</")
  {
    && StartsWith(source, "</")
    && ToLower(JsSlice(source, 2, 2 + |tag|)) == ToLower(tag)
    && !IsTagChar(if 2 + |tag| < |source| then source[2 + |tag|] else '>')
  }

  /** An end tag for `tag` opens the input exactly when these characters are there. */
  lemma StartsWithEndTagOpenSpec(source: string, tag: string)
    ensures StartsWithEndTagOpen(source, tag) <==>
      && 2 + |tag| <= |source|
      && source[..2] == "</"
      && (forall i :: 0 <= i < |tag| ==> ToLowerChar(source[2 + i]) == ToLowerChar(tag[i]))
      && (2 + |tag| == |source| || !IsTagChar(source[2 + |tag|]))
  {
    var sl := JsSlice(source, 2, 2 + |tag|);
    if StartsWith(source, "</") {
      if 2 + |tag| <= |source| {
        assert sl == source[2..2 + |tag|];
        if forall i :: 0 <= i < |tag| ==> ToLowerChar(source[2 + i]) == ToLowerChar(tag[i]) {
          assert forall i :: 0 <= i < |tag| ==> ToLower(sl)[i] == ToLower(tag)[i];
          assert ToLower(sl) == ToLower(tag);
        } else {
          var i :| 0 <= i < |tag| && ToLowerChar(source[2 + i]) != ToLowerChar(tag[i]);
          assert ToLower(sl)[i] != ToLower(tag)[i];
        }
      } else {
        assert |ToLower(sl)| < |ToLower(tag)|;
      }
    }
  }

  /** The end tag the parser writes for an element opens its own end. */
  lemma EndTagOpensEnd(tag: string, rest: string)
    ensures StartsWithEndTagOpen("</" + tag + ">" + rest, tag)
  {
    var s := "</" + tag + ">" + rest;
    assert s[..2] == "</" && s[2 + |tag|] == '>';
    assert forall i :: 0 <= i < |tag| ==> s[2 + i] == tag[i];
    StartsWithEndTagOpenSpec(s, tag);
  }

  /** The test ignores ASCII case: two names equal up to case open the same end tags. */
  lemma EndTagIgnoresCase(source: string, a: string, b: string)
    requires ToLower(a) == ToLower(b)
    ensures StartsWithEndTagOpen(source, a) <==> StartsWithEndTagOpen(source, b)
  {
  }

  /** An end tag opening for a name that starts with a letter is a tag opening. */
  lemma EndTagOpenIsTag(source: string, tag: string)
    requires StartsWithEndTagOpen(source, tag) && tag != [] && IsAsciiLetter(tag[0])
    ensures TagOpenAt(source) && StartsWith(source, "</")
  {
    StartsWithEndTagOpenSpec(source, tag);
    assert ToLowerChar(source[2]) == ToLowerChar(tag[0]);
  }

  /**
   * The end condition of a sibling list: the input is exhausted, or, in
   * DATA mode, an end tag of any open element follows; in RCDATA and
   * RAWTEXT mode the end tag of the innermost one; in CDATA mode `]]>`.
   */
  predicate AtEnd(s: string, mode: TextMode, ancestors: seq<ElementNode>)
    ensures s == [] ==> AtEnd(s, mode, ancestors)
    ensures AtEnd(s, mode, ancestors) && s != [] ==>
      if mode.CData? then StartsWith(s, "]]>") else !mode.AttributeValue? && StartsWith(s, "</")
  {
    || s == []
    || (mode.Data? && StartsWith(s, "</") && exists i :: 0 <= i < |ancestors| && StartsWithEndTagOpen(s, ancestors[i].tag))
    || ((mode.RcData? || mode.RawText?) && ancestors != [] && StartsWithEndTagOpen(s, ancestors[|ancestors| - 1].tag))
    || (mode.CData? && StartsWith(s, "]]>"))
  }

  /** `isEnd`: the DATA case searches the open elements from the innermost out. */
  method IsEnd(ctx: ParserContext, mode: TextMode, ancestors: seq<ElementNode>) returns (end: bool)
    ensures end == AtEnd(ctx.source, mode, ancestors)
  {
    var s := ctx.source;
    match mode {
      case Data =>
        if StartsWith(s, "</") {
          var i := |ancestors| - 1;
          while i >= 0
            invariant -1 <= i < |ancestors|
            invariant forall j :: i < j < |ancestors| ==> !StartsWithEndTagOpen(s, ancestors[j].tag)
          {
            if StartsWithEndTagOpen(s, ancestors[i].tag) {
              return true;
            }
            i := i - 1;
          }
        }
      case RcData =>
        var parent := Last(ancestors);
        if parent.Some? && StartsWithEndTagOpen(s, parent.value.tag) {
          return true;
        }
      case RawText =>
        var parent := Last(ancestors);
        if parent.Some? && StartsWithEndTagOpen(s, parent.value.tag) {
          return true;
        }
      case CData =>
        if StartsWith(s, "]]>") {
          return true;
        }
      case AttributeValue =>
    }
    return s == [];
  }

  /** With no open element, a DATA list ends only at the end of the input. */
  lemma TopLevelEnd(s: string)
    ensures AtEnd(s, Data, []) <==> s == []
  {
  }

  // ------------------------------------------------------------- the grammar

  /**
   * A node read inside `v-pre`: no interpolation anywhere, and every
   * element has only plain attributes.
   */
  ghost predicate Verbatim(n: Node)
    decreases n
  {
    !n.Interpolation? && (n.Element? ==> (forall p <- n.props :: p.Attribute?) && forall c <- n.children :: Verbatim(c))
  }

  /** The nodes a text mode can produce: anything in DATA, text or interpolations in RCDATA, text otherwise. */
  predicate ModeAllows(mode: TextMode, n: Node) {
    mode.Data? || n.Text? || (mode.RcData? && n.Interpolation?)
  }

  /**
   * `parseChildren`: reads nodes until the end condition of the mode, pushes
   * them with `pushNode`, then runs the whitespace pass. The list is well
   * formed, lies within the characters consumed, and stops exactly at the
   * end condition.
   */
  method ParseChildren(ctx: ParserContext, mode: TextMode, ancestors: seq<ElementNode>) returns (nodes: seq<Node>)
    requires ctx.Valid() && DelimitersOk(ctx.options)
    modifies ctx`source, ctx`offset, ctx`line, ctx`column, ctx`errors, ctx`inPre, ctx`inVPre
    decreases |ctx.source|, 4
    ensures ctx.Valid() && old(ctx.offset) <= ctx.offset
    ensures AtEnd(ctx.source, mode, ancestors)
    ensures NodesOk(nodes, ctx.originalSource, old(ctx.offset), ctx.offset)
    ensures ctx.inVPre == old(ctx.inVPre) && (old(ctx.inPre) ==> ctx.inPre)
    ensures forall n <- nodes :: ModeAllows(mode, n)
    ensures ctx.inVPre ==> forall n <- nodes :: Verbatim(n)
    ensures !mode.RawText? && !mode.RcData? ==> WhitespaceCondensed(nodes, ctx.inPre, ctx.options)
  {
    var parent := Last(ancestors);
    nodes := [];
    var end := IsEnd(ctx, mode, ancestors);
    while !end
      invariant ctx.Valid() && old(ctx.offset) <= ctx.offset
      invariant end == AtEnd(ctx.source, mode, ancestors)
      invariant NodesOk(nodes, ctx.originalSource, old(ctx.offset), ctx.offset)
      invariant ctx.inVPre == old(ctx.inVPre) && (old(ctx.inPre) ==> ctx.inPre)
      invariant forall n <- nodes :: ModeAllows(mode, n)
      invariant ctx.inVPre ==> forall n <- nodes :: Verbatim(n)
      decreases |ctx.source|
    {
      ghost var before := ctx.offset;
      var more := ParseNext(ctx, mode, ancestors);
      PushAllOk(nodes, more, ctx.originalSource, old(ctx.offset), before, ctx.offset);
      PushAllKinds(nodes, more);
      nodes := PushNodes(nodes, more);
      end := IsEnd(ctx, mode, ancestors);
    }
    nodes := TidyChildren(nodes, mode, ctx.inPre, parent, ctx.options, ctx.originalSource, old(ctx.offset), ctx.offset, ctx.inVPre);
  }

  /**
   * What the whitespace pass leaves outside RAWTEXT and RCDATA: no comment
   * unless comments are kept, and outside `<pre>` no blank text at the
   * start, and every text either a single space or not blank, with no two
   * whitespace characters together unless whitespace is preserved.
   */
  predicate WhitespaceCondensed(nodes: seq<Node>, inPre: bool, o: Options) {
    && (!o.comments ==> forall n <- nodes :: !n.Comment?)
    && (!inPre ==>
          && (nodes != [] ==> !(nodes[0].Text? && AllHtmlSpace(nodes[0].content)))
          && forall n <- nodes :: n.Text? ==>
               n.content == " " || (!AllHtmlSpace(n.content) && (!o.whitespace.Preserve? ==> NoAdjacent(n.content, IsHtmlSpace))))
  }

  /** The end of `parseChildren`: the whitespace pass, which keeps the list valid and only drops or rewrites text and comments. */
  method TidyChildren(nodes: seq<Node>, mode: TextMode, inPre: bool, parent: Option<ElementNode>, o: Options,
                      ghost orig: string, ghost a: int, ghost b: int, ghost inVPre: bool)
    returns (r: seq<Node>)
    requires NodesOk(nodes, orig, a, b)
    requires forall n <- nodes :: ModeAllows(mode, n)
    requires inVPre ==> forall n <- nodes :: Verbatim(n)
    ensures NodesOk(r, orig, a, b)
    ensures forall n <- r :: ModeAllows(mode, n)
    ensures inVPre ==> forall n <- r :: Verbatim(n)
    ensures !mode.RawText? && !mode.RcData? ==> WhitespaceCondensed(r, inPre, o)
  {
    ghost var stripPre := inPre && parent.Some? && o.isPreTag(parent.value.tag);
    if !mode.RawText? && !mode.RcData? {
      TidiedOk(nodes, inPre, stripPre, o, orig, a, b);
      TidiedKinds(nodes, inPre, stripPre, o);
      TidiedComments(nodes, inPre, stripPre, o);
      if !inPre {
        TidiedTexts(nodes, inPre, stripPre, o);
        TidiedStartsWithContent(nodes, inPre, stripPre, o);
      }
    }
    r := CondenseWhitespace(nodes, mode, inPre, parent, o);
  }

  /**
   * One turn of the loop of `parseChildren`: the nodes it pushes (none
   * after an end tag it skips, several after CDATA). It always consumes.
   */
  method ParseNext(ctx: ParserContext, mode: TextMode, ancestors: seq<ElementNode>) returns (more: seq<Node>)
    requires ctx.Valid() && DelimitersOk(ctx.options) && ctx.source != []
    modifies ctx`source, ctx`offset, ctx`line, ctx`column, ctx`errors, ctx`inPre, ctx`inVPre
    decreases |ctx.source|, 3
    ensures ctx.Valid() && old(ctx.offset) < ctx.offset
    ensures NodesOk(more, ctx.originalSource, old(ctx.offset), ctx.offset)
    ensures ctx.inVPre == old(ctx.inVPre) && (old(ctx.inPre) ==> ctx.inPre)
    ensures forall n <- more :: ModeAllows(mode, n)
    ensures ctx.inVPre ==> forall n <- more :: Verbatim(n)
  {
    var s := ctx.source;
    if (mode.Data? || mode.RcData?) && !ctx.inVPre && StartsWith(s, ctx.options.openDelimiter) {
      more := ParseInterpolationOrText(ctx, mode);
    } else if mode.Data? && s[0] == '<' {
      more := ParseMarkup(ctx, ancestors);
    } else {
      var text := ParseText(ctx, mode);
      more := [text];
    }
  }

  /** An interpolation, or the text `parseChildren` reads instead when its closing delimiter is missing. */
  method ParseInterpolationOrText(ctx: ParserContext, mode: TextMode) returns (more: seq<Node>)
    requires ctx.Valid() && DelimitersOk(ctx.options) && ctx.source != []
    requires (mode.Data? || mode.RcData?) && StartsWith(ctx.source, ctx.options.openDelimiter)
    modifies ctx`source, ctx`offset, ctx`line, ctx`column, ctx`errors
    ensures ctx.Valid() && old(ctx.offset) < ctx.offset
    ensures NodesOk(more, ctx.originalSource, old(ctx.offset), ctx.offset)
    ensures forall n <- more :: ModeAllows(mode, n)
  {
    var node := ParseInterpolation(ctx, mode);
    if node.None? {
      var text := ParseText(ctx, mode);
      node := Some(text);
    }
    more := [node.value];
  }

  /** A single comment, text or interpolation node read from offsets `a` to `b` is a well-formed list. */
  lemma LeafOk(n: Node, orig: string, a: int, b: int)
    requires !n.Element? && LocOk(n.loc, orig) && n.loc.start.offset == a < b == n.loc.end.offset
    ensures NodesOk([n], orig, a, b)
    ensures !n.Interpolation? ==> Verbatim(n)
  {
  }

  /** The DATA-mode branch of `parseChildren` for input that starts with `<`. */
  method ParseMarkup(ctx: ParserContext, ancestors: seq<ElementNode>) returns (more: seq<Node>)
    requires ctx.Valid() && DelimitersOk(ctx.options) && ctx.source != [] && ctx.source[0] == '<'
    modifies ctx`source, ctx`offset, ctx`line, ctx`column, ctx`errors, ctx`inPre, ctx`inVPre
    decreases |ctx.source|, 2
    ensures ctx.Valid() && old(ctx.offset) < ctx.offset
    ensures NodesOk(more, ctx.originalSource, old(ctx.offset), ctx.offset)
    ensures ctx.inVPre == old(ctx.inVPre) && (old(ctx.inPre) ==> ctx.inPre)
    ensures ctx.inVPre ==> forall n <- more :: Verbatim(n)
  {
    var s := ctx.source;
    if |s| >= 2 && s[1] == '!' {
      more := ParseDeclaration(ctx, ancestors);
    } else if |s| >= 2 && s[1] == '/' {
      more := ParseEndTagMarkup(ctx, Last(ancestors));
    } else if |s| >= 2 && IsAsciiLetter(s[1]) {
      more := ParseElementNode(ctx, ancestors);
    } else {
      more := ParseNonTag(ctx);
    }
  }

  /** The element branch of the DATA-mode markup: the element, as a one-node list. */
  method ParseElementNode(ctx: ParserContext, ancestors: seq<ElementNode>) returns (more: seq<Node>)
    requires ctx.Valid() && DelimitersOk(ctx.options)
    requires |ctx.source| >= 2 && ctx.source[0] == '<' && IsAsciiLetter(ctx.source[1])
    modifies ctx`source, ctx`offset, ctx`line, ctx`column, ctx`errors, ctx`inPre, ctx`inVPre
    decreases |ctx.source|, 1
    ensures ctx.Valid() && old(ctx.offset) < ctx.offset
    ensures NodesOk(more, ctx.originalSource, old(ctx.offset), ctx.offset)
    ensures ctx.inVPre == old(ctx.inVPre) && (old(ctx.inPre) ==> ctx.inPre)
    ensures ctx.inVPre ==> forall n <- more :: Verbatim(n)
  {
    var element, _, _ := ParseElement(ctx, ancestors);
    more := [element];
  }

  /** A `<` that opens no tag: text at the end of the input or before a bad character, a bogus comment before `?`. */
  method ParseNonTag(ctx: ParserContext) returns (more: seq<Node>)
    requires ctx.Valid() && ctx.source != [] && ctx.source[0] == '<'
    requires |ctx.source| >= 2 ==> ctx.source[1] != '!' && ctx.source[1] != '/' && !IsAsciiLetter(ctx.source[1])
    modifies ctx`source, ctx`offset, ctx`line, ctx`column, ctx`errors
    ensures ctx.Valid() && old(ctx.offset) < ctx.offset
    ensures NodesOk(more, ctx.originalSource, old(ctx.offset), ctx.offset)
    ensures forall n <- more :: Verbatim(n)
  {
    var s := ctx.source;
    ghost var a := ctx.offset;
    var node: Node;
    if |s| == 1 {
      ctx.EmitError(EofBeforeTagName);
      node := ParseText(ctx, Data);
    } else if s[1] == '?' {
      ctx.EmitError(UnexpectedQuestionMarkInsteadOfTagName);
      node := ParseBogusComment(ctx);
    } else {
      ctx.EmitError(InvalidFirstCharacterOfTagName);
      node := ParseText(ctx, Data);
    }
    LeafOk(node, ctx.originalSource, a, ctx.offset);
    more := [node];
  }

  /**
   * The `</` branch: at the end of the input or before a character that
   * cannot start a tag name the `<` is text or a bogus comment; `</>` is
   * skipped; an end tag nobody opened is read and dropped.
   */
  method ParseEndTagMarkup(ctx: ParserContext, parent: Option<ElementNode>) returns (more: seq<Node>)
    requires ctx.Valid() && StartsWith(ctx.source, "</")
    modifies ctx`source, ctx`offset, ctx`line, ctx`column, ctx`errors, ctx`inPre, ctx`inVPre
    ensures ctx.Valid() && old(ctx.offset) < ctx.offset
    ensures NodesOk(more, ctx.originalSource, old(ctx.offset), ctx.offset)
    ensures ctx.inVPre == old(ctx.inVPre) && (old(ctx.inPre) ==> ctx.inPre)
    ensures forall n <- more :: n.Text? || n.Comment?
    ensures |old(ctx.source)| > 2 && (old(ctx.source)[2] == '>' || IsAsciiLetter(old(ctx.source)[2])) ==> more == []
  {
    var s := ctx.source;
    assert s[0] == '<' && s[1] == '/' by { assert s[..2] == "</"; }
    if |s| > 2 && s[2] == '>' {
      ctx.EmitError(MissingEndTagName);
      ctx.AdvanceBy(3);
      return [];
    } else if |s| > 2 && IsAsciiLetter(s[2]) {
      ctx.EmitError(XInvalidEndTag);
      var _, _, _ := ParseTag(ctx, End, parent);
      return [];
    }
    ghost var a := ctx.offset;
    var node: Node;
    if |s| == 2 {
      ctx.EmitError(EofBeforeTagName);
      node := ParseText(ctx, Data);
    } else {
      ctx.EmitError(InvalidFirstCharacterOfTagName);
      node := ParseBogusComment(ctx);
    }
    LeafOk(node, ctx.originalSource, a, ctx.offset);
    more := [node];
  }

  /** The `<!` branch: a comment, a DOCTYPE read as a bogus comment, CDATA outside HTML, or a bogus comment. */
  method ParseDeclaration(ctx: ParserContext, ancestors: seq<ElementNode>) returns (more: seq<Node>)
    requires ctx.Valid() && DelimitersOk(ctx.options) && StartsWith(ctx.source, "<!")
    modifies ctx`source, ctx`offset, ctx`line, ctx`column, ctx`errors, ctx`inPre, ctx`inVPre
    decreases |ctx.source|, 1
    ensures ctx.Valid() && old(ctx.offset) < ctx.offset
    ensures NodesOk(more, ctx.originalSource, old(ctx.offset), ctx.offset)
    ensures ctx.inVPre == old(ctx.inVPre) && (old(ctx.inPre) ==> ctx.inPre)
    ensures forall n <- more :: n.Text? || n.Comment?
  {
    var parent := Last(ancestors);
    var ns := if parent.Some? then parent.value.ns else HTML;
    var s := ctx.source;
    assert s[0] == '<' by { assert s[..2] == "<!"; }
    if StartsWith(s, "<![CDATA[") && ns != HTML {
      more := ParseCDATA(ctx, ancestors);
      return;
    }
    ghost var a := ctx.offset;
    var node: Node;
    if StartsWith(s, "<!--") {
      node := ParseComment(ctx);
    } else if StartsWith(s, "<!DOCTYPE") {
      node := ParseBogusComment(ctx);
    } else if StartsWith(s, "<![CDATA[") {
      ctx.EmitError(CDataInHtmlContent);
      node := ParseBogusComment(ctx);
    } else {
      ctx.EmitError(IncorrectlyOpenedComment);
      node := ParseBogusComment(ctx);
    }
    LeafOk(node, ctx.originalSource, a, ctx.offset);
    more := [node];
  }

  /** `parseCDATA`: `<![CDATA[`, the text up to `]]>` in CDATA mode, then `]]>` unless the input ran out. */
  method ParseCDATA(ctx: ParserContext, ancestors: seq<ElementNode>) returns (nodes: seq<Node>)
    requires ctx.Valid() && DelimitersOk(ctx.options) && StartsWith(ctx.source, "<![CDATA[")
    modifies ctx`source, ctx`offset, ctx`line, ctx`column, ctx`errors, ctx`inPre, ctx`inVPre
    decreases |ctx.source|, 0
    ensures ctx.Valid() && old(ctx.offset) + 9 <= ctx.offset
    ensures NodesOk(nodes, ctx.originalSource, old(ctx.offset), ctx.offset)
    ensures ctx.inVPre == old(ctx.inVPre) && (old(ctx.inPre) ==> ctx.inPre)
    ensures forall n <- nodes :: n.Text?
  {
    ghost var o := ctx.offset;
    ctx.AdvanceBy(9);
    nodes := ParseChildren(ctx, CData, ancestors);
    ghost var mid := ctx.offset;
    if |ctx.source| == 0 {
      ctx.EmitError(EofInCData);
    } else {
      ctx.AdvanceBy(3);
    }
    NodesOkWeaken(nodes, ctx.originalSource, o + 9, mid, o, ctx.offset);
  }

  /**
   * `parseElement`: the start tag; then, unless it is self-closing or void,
   * the children in the mode the options choose and the end tag, or an
   * `XMissingEndTag`. A `<pre>` or `v-pre` the element switched on is
   * switched off after it.
   */
  method ParseElement(ctx: ParserContext, ancestors: seq<ElementNode>)
    returns (element: ElementNode, ghost attrs: string, ghost attrsAt: nat)
    requires ctx.Valid() && DelimitersOk(ctx.options)
    requires |ctx.source| >= 2 && ctx.source[0] == '<' && IsAsciiLetter(ctx.source[1])
    modifies ctx`source, ctx`offset, ctx`line, ctx`column, ctx`errors, ctx`inPre, ctx`inVPre
    decreases |ctx.source|, 0
    ensures ctx.Valid() && old(ctx.offset) < ctx.offset
    ensures AttrListOf(old(ctx.source), old(ctx.offset), attrs, attrsAt)
    ensures WellFormed(element, ctx.originalSource)
    ensures element.loc.start.offset == old(ctx.offset) && element.loc.end.offset == ctx.offset
    ensures element.tag == TagName(old(ctx.source))
    ensures element.isSelfClosing || ctx.options.isVoidTag(element.tag) ==> element.children == []
    ensures ctx.inVPre == old(ctx.inVPre) && (old(ctx.inPre) ==> ctx.inPre)
    ensures ctx.inVPre ==> Verbatim(element)
    ensures var scans := ScanAttributes(attrs, attrsAt, ctx.options.decodeEntities);
      TagPropsRead(element.props, scans, old(ctx.inVPre), old(ctx.inVPre) || SpellsVPre(scans))
  {
    var wasInPre := ctx.inPre;
    var wasInVPre := ctx.inVPre;
    var parent := Last(ancestors);
    element, attrs, attrsAt := ParseStartTag(ctx, parent);
    var isPreBoundary := ctx.inPre && !wasInPre;
    var isVPreBoundary := ctx.inVPre && !wasInVPre;
    if !(element.isSelfClosing || ctx.options.isVoidTag(element.tag)) {
      element := ParseElementBody(ctx, ancestors, element);
    }
    LeaveBoundaries(ctx, isPreBoundary, isVPreBoundary);
  }

  /** The last step of `parseElement`: a `<pre>` or `v-pre` boundary the element opened is closed. */
  method LeaveBoundaries(ctx: ParserContext, isPreBoundary: bool, isVPreBoundary: bool)
    modifies ctx`inPre, ctx`inVPre
    ensures ctx.inPre == (old(ctx.inPre) && !isPreBoundary)
    ensures ctx.inVPre == (old(ctx.inVPre) && !isVPreBoundary)
  {
    if isPreBoundary {
      ctx.inPre := false;
    }
    if isVPreBoundary {
      ctx.inVPre := false;
    }
  }

  /** The start tag of `parseElement`: a well-formed element without children, its props read from the tag. */
  method ParseStartTag(ctx: ParserContext, parent: Option<ElementNode>)
    returns (element: ElementNode, ghost attrs: string, ghost attrsAt: nat)
    requires ctx.Valid() && |ctx.source| >= 2 && ctx.source[0] == '<' && IsAsciiLetter(ctx.source[1])
    modifies ctx`source, ctx`offset, ctx`line, ctx`column, ctx`errors, ctx`inPre, ctx`inVPre
    ensures ctx.Valid() && old(ctx.offset) < ctx.offset
    ensures AttrListOf(old(ctx.source), old(ctx.offset), attrs, attrsAt)
    ensures WellFormed(element, ctx.originalSource) && element.children == []
    ensures element.loc.start.offset == old(ctx.offset) && element.loc.end.offset == ctx.offset
    ensures element.tag == TagName(old(ctx.source)) && element.tag != [] && IsAsciiLetter(element.tag[0])
    ensures old(ctx.inPre) ==> ctx.inPre
    ensures TagPropsRead(element.props, ScanAttributes(attrs, attrsAt, ctx.options.decodeEntities), old(ctx.inVPre), ctx.inVPre)
    ensures ctx.inVPre ==> forall p <- element.props :: p.Attribute?
  {
    assert !StartsWith(ctx.source, "</");
    var tag;
    tag, attrs, attrsAt := ParseTag(ctx, Start, parent);
    element := tag.value;
  }

  /** The part of `parseElement` after a start tag that opens children: the children, then the end tag. */
  method ParseElementBody(ctx: ParserContext, ancestors: seq<ElementNode>, start: ElementNode) returns (element: ElementNode)
    requires ctx.Valid() && DelimitersOk(ctx.options)
    requires LocOk(start.loc, ctx.originalSource) && start.loc.start.offset < start.loc.end.offset == ctx.offset
    requires forall p <- start.props :: PropOk(p, ctx.originalSource)
    requires start.tag != [] && IsAsciiLetter(start.tag[0])
    modifies ctx`source, ctx`offset, ctx`line, ctx`column, ctx`errors, ctx`inPre, ctx`inVPre
    decreases |ctx.source|, 5
    ensures ctx.Valid() && old(ctx.offset) <= ctx.offset
    ensures WellFormed(element, ctx.originalSource)
    ensures element == start.(children := element.children, loc := element.loc)
    ensures element.loc.start == start.loc.start && element.loc.end.offset == ctx.offset
    ensures ctx.inVPre == old(ctx.inVPre) && (old(ctx.inPre) ==> ctx.inPre)
    ensures ctx.inVPre ==> forall c <- element.children :: Verbatim(c)
  {
    var parent := Last(ancestors);
    var mode := ctx.options.getTextMode(start, parent);
    var children := ParseChildren(ctx, mode, ancestors + [start]);
    element := start.(children := children);
    ParseEndTag(ctx, element, parent);
    var loc := ctx.GetSelection(element.loc.start, None);
    element := Element(element.ns, element.tag, element.tagType, element.props, element.isSelfClosing, children, loc);
  }

  /**
   * The end of `parseElement`: the element's end tag when it follows,
   * otherwise an `XMissingEndTag`, and for a `<script>` cut off by the end
   * of the input after `<!--`, an `EofInScriptHtmlCommentLikeText`.
   */
  method ParseEndTag(ctx: ParserContext, element: ElementNode, parent: Option<ElementNode>)
    requires ctx.Valid() && element.tag != [] && IsAsciiLetter(element.tag[0])
    modifies ctx`source, ctx`offset, ctx`line, ctx`column, ctx`errors, ctx`inPre, ctx`inVPre
    ensures ctx.Valid() && old(ctx.offset) <= ctx.offset
    ensures ctx.inVPre == old(ctx.inVPre) && (old(ctx.inPre) ==> ctx.inPre)
    ensures StartsWithEndTagOpen(old(ctx.source), element.tag) ==> old(ctx.offset) < ctx.offset
    ensures !StartsWithEndTagOpen(old(ctx.source), element.tag) ==>
      ctx.offset == old(ctx.offset) && |ctx.errors| > |old(ctx.errors)| && ctx.errors[|old(ctx.errors)|] == XMissingEndTag
  {
    if StartsWithEndTagOpen(ctx.source, element.tag) {
      EndTagOpenIsTag(ctx.source, element.tag);
      var _, _, _ := ParseTag(ctx, End, parent);
    } else {
      ctx.EmitError(XMissingEndTag);
      if |ctx.source| == 0 && ToLower(element.tag) == "script" {
        if |element.children| > 0 && StartsWith(element.children[0].loc.source, "<!--") {
          ctx.EmitError(EofInScriptHtmlCommentLikeText);
        }
      }
    }
  }

  // ---------------------------------------------------------------- baseParse

  /**
   * `baseParse`: the children of the root are the DATA-mode list of the
   * whole template, which is consumed to its end; the root spans it all.
   */
  method BaseParse(content: string, options: Options) returns (root: Root)
    requires DelimitersOk(options)
    ensures NodesOk(root.children, content, 0, |content|)
    ensures root.loc.start == Position(1, 1, 0) && root.loc.end.offset == |content| && root.loc.source == content
  {
    var ctx := new ParserContext(content, options);
    var start := ctx.Cursor();
    var children := ParseChildren(ctx, Data, []);
    TopLevelEnd(ctx.source);
    root := Root(children, ctx.GetSelection(start, None));
  }

  /**
   * The default options: `{{`/`}}` delimiters, the HTML namespace and DATA
   * mode everywhere, no void, `<pre>`-like or custom tags, the five-entity
   * decoder, whitespace condensed. Which tags are core components, and
   * whether comments are kept, are given.
   */
  function DefaultParserOptions(isCoreComponent: string -> bool, comments: bool): (o: Options)
    ensures DelimitersOk(o)
  {
    Options(
      "{{", "}}",
      (tag, parent) => HTML,
      (element, parent) => Data,
      tag => false,
      tag => false,
      tag => false,
      None,
      None,
      isCoreComponent,
      DefaultDecodeEntities,
      Condense,
      comments)
  }
}
