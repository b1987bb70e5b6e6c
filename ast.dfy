/**
 * The template AST, the parser options and the diagnostics, with the
 * well-formedness predicates the parser establishes for every node it builds.
 */
module Ast {
  import opened Wrappers
  import opened Chars
  import opened Positions

  /** Which terminators and constructs are recognised inside a region. */
  datatype TextMode = Data | RcData | RawText | CData | AttributeValue

  type Namespace = nat

  const HTML: Namespace := 0

  datatype ElementType = PlainElement | Component | Slot | Template

  datatype ConstantType = NotConstant | CanStringify

  datatype TagType = Start | End

  /** The diagnostics the parser emits; where they point is not modelled. */
  datatype ErrorCode =
    | AbruptClosingOfEmptyComment
    | CDataInHtmlContent
    | DuplicateAttribute
    | EndTagWithAttributes
    | EndTagWithTrailingSolidus
    | EofBeforeTagName
    | EofInCData
    | EofInComment
    | EofInScriptHtmlCommentLikeText
    | EofInTag
    | IncorrectlyClosedComment
    | IncorrectlyOpenedComment
    | InvalidFirstCharacterOfTagName
    | MissingAttributeValue
    | MissingEndTagName
    | MissingWhitespaceBetweenAttributes
    | NestedComment
    | UnexpectedCharacterInAttributeName
    | UnexpectedCharacterInUnquotedAttributeValue
    | UnexpectedEqualsSignBeforeAttributeName
    | UnexpectedQuestionMarkInsteadOfTagName
    | UnexpectedSolidusInTag
    | XInvalidEndTag
    | XMissingEndTag
    | XMissingInterpolationEnd
    | XMissingDynamicDirectiveArgumentEnd
    | XMissingDirectiveName

  /** `n` copies of one diagnostic, as a scan emits them one per offending character. */
  function Repeat(code: ErrorCode, n: nat): (r: seq<ErrorCode>)
    ensures |r| == n
    ensures forall i :: 0 <= i < n ==> r[i] == code
  {
    if n == 0 then [] else Repeat(code, n - 1) + [code]
  }

  datatype Expression = SimpleExpression(content: string, isStatic: bool, constType: ConstantType, loc: SourceLocation)

  /** The text value of a plain attribute. */
  datatype TextValue = TextValue(content: string, loc: SourceLocation)

  /** What `parseAttributeValue` returns: the decoded content, whether it was quoted, and its location. */
  datatype AttrValue = AttrValue(content: string, isQuoted: bool, loc: SourceLocation)

  datatype Prop =
    | Attribute(name: string, value: Option<TextValue>, loc: SourceLocation)
    | Directive(name: string, exp: Option<Expression>, arg: Option<Expression>, modifiers: seq<string>, loc: SourceLocation)

  datatype Node =
    | Element(ns: Namespace, tag: string, tagType: ElementType, props: seq<Prop>,
              isSelfClosing: bool, children: seq<Node>, loc: SourceLocation)
    | Text(content: string, loc: SourceLocation)
    | Comment(content: string, loc: SourceLocation)
    | Interpolation(expression: Expression, loc: SourceLocation)

  type ElementNode = n: Node | n.Element?
    witness Element(HTML, "div", PlainElement, [], false, [], SourceLocation(Position(1, 1, 0), Position(1, 1, 0), ""))

  datatype Root = Root(children: seq<Node>, loc: SourceLocation)

  datatype WhitespaceStrategy = Condense | Preserve

  /**
   * The parser options. The callbacks are uninterpreted parameters;
   * `isCoreComponent` stands for the helper of the same name in utils.ts,
   * which is not part of this model.
   */
  datatype Options = Options(
    openDelimiter: string,
    closeDelimiter: string,
    getNamespace: (string, Option<ElementNode>) -> Namespace,
    getTextMode: (ElementNode, Option<ElementNode>) -> TextMode,
    isVoidTag: string -> bool,
    isPreTag: string -> bool,
    isCustomElement: string -> bool,
    isNativeTag: Option<string -> bool>,
    isBuiltInComponent: Option<string -> bool>,
    isCoreComponent: string -> bool,
    decodeEntities: (string, bool) -> string,
    whitespace: WhitespaceStrategy,
    comments: bool
  )

  /** Interpolation delimiters must not both be empty, or an interpolation could consume nothing. */
  predicate DelimitersOk(o: Options) {
    o.openDelimiter != [] || o.closeDelimiter != []
  }

  ghost predicate PropOk(p: Prop, orig: string) {
    LocOk(p.loc, orig) &&
    match p
    case Attribute(_, value, _) => value.Some? ==> LocOk(value.value.loc, orig)
    case Directive(_, exp, arg, _, _) =>
      (exp.Some? ==> LocOk(exp.value.loc, orig)) && (arg.Some? ==> LocOk(arg.value.loc, orig))
  }

  /** Two siblings `pushNode` would have merged: both text, the first ending where the second starts. */
  predicate Mergeable(a: Node, b: Node) {
    a.Text? && b.Text? && a.loc.end.offset == b.loc.start.offset
  }

  predicate NoMergeable(nodes: seq<Node>) {
    forall i :: 0 <= i < |nodes| - 1 ==> !Mergeable(nodes[i], nodes[i + 1])
  }

  /** Siblings appear in source order and do not overlap. */
  predicate Ordered(nodes: seq<Node>) {
    forall i, j :: 0 <= i < j < |nodes| ==> nodes[i].loc.end.offset <= nodes[j].loc.start.offset
  }

  /**
   * Every location in the tree is a non-empty-for-nodes slice of `orig`, and
   * every child list is ordered and free of mergeable text neighbours.
   */
  ghost predicate WellFormed(n: Node, orig: string)
    decreases n
  {
    && LocOk(n.loc, orig)
    && n.loc.start.offset < n.loc.end.offset
    && (n.Element? ==>
          && (forall p <- n.props :: PropOk(p, orig))
          && (forall c <- n.children :: WellFormed(c, orig))
          && Ordered(n.children)
          && NoMergeable(n.children))
  }

  /** A sibling list built from the characters between offsets `a` and `b`. */
  ghost predicate NodesOk(nodes: seq<Node>, orig: string, a: int, b: int) {
    && (forall n <- nodes :: WellFormed(n, orig) && a <= n.loc.start.offset && n.loc.end.offset <= b)
    && Ordered(nodes)
    && NoMergeable(nodes)
  }

  lemma NodesOkWeaken(nodes: seq<Node>, orig: string, a: int, b: int, a': int, b': int)
    requires NodesOk(nodes, orig, a, b) && a' <= a && b <= b'
    ensures NodesOk(nodes, orig, a', b')
  {
  }
}
