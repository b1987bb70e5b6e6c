/**
 * The tag and attribute grammar: attribute values, attribute names with
 * their optional value, directives, the attribute list of a tag, and the tag
 * itself with its `<pre>` and `v-pre` bookkeeping.
 */
module Tags {
  import opened Wrappers
  import opened Chars
  import opened Positions
  import opened Ast
  import opened Entities
  import opened Directives
  import opened Context
  import opened Leaves

  predicate IsQuote(c: char) {
    c == '"' || c == '\''
  }

  /** `[^\t\r\n\f >]`, a character of an unquoted value. */
  predicate IsUnquotedValueChar(c: char) {
    !IsHtmlSpace(c) && c != '>'
  }

  /** `["'<=\`]`, reported inside an unquoted value. */
  predicate IsUnexpectedInValue(c: char) {
    c == '"' || c == '\'' || c == '<' || c == '=' || c == '`'
  }

  /**
   * One diagnostic for every character of `s` that satisfies `p`, in order:
   * the `while ((m = pattern.exec(s)))` loops of the attribute scanners.
   */
  method EmitPerChar(ctx: ParserContext, s: string, p: char -> bool, code: ErrorCode)
    modifies ctx`errors
    ensures ctx.errors == old(ctx.errors) + Repeat(code, CountWhere(s, p))
  {
    for i := 0 to |s|
      invariant ctx.errors == old(ctx.errors) + Repeat(code, CountWhere(s[..i], p))
    {
      assert s[..i + 1][..i] == s[..i];
      if p(s[i]) {
        ctx.EmitError(code);
        AppendAssoc(old(ctx.errors), Repeat(code, CountWhere(s[..i], p)), [code]);
      }
    }
    assert s[..|s|] == s;
  }

  /** What scanning an attribute value yields: its text, whether it was quoted, its length and its diagnostics. */
  datatype ValueScan = ValueScan(content: string, isQuoted: bool, length: nat, errors: seq<ErrorCode>)

  /**
   * The value `parseAttributeValue` reads at the start of `s`: a quoted value
   * runs to the first matching quote (or to the end when there is none); an
   * unquoted one is the run of `[^\t\r\n\f >]`, absent when that run is empty.
   */
  function ScanAttributeValue(s: string, decode: (string, bool) -> string): (r: Option<ValueScan>)
    ensures r.None? <==> s == [] || (!IsQuote(s[0]) && !IsUnquotedValueChar(s[0]))
    ensures r.Some? ==> 1 <= r.value.length <= |s|
    ensures r.Some? ==> (r.value.isQuoted <==> IsQuote(s[0]))
    ensures r.Some? && r.value.isQuoted ==>
              r.value.errors == [] && (r.value.length == |s| || (2 <= r.value.length && s[r.value.length - 1] == s[0]))
    ensures r.Some? && !r.value.isQuoted ==>
              (forall i :: 0 <= i < r.value.length ==> IsUnquotedValueChar(s[i]))
              && (r.value.length == |s| || !IsUnquotedValueChar(s[r.value.length]))
  {
    if s != [] && IsQuote(s[0]) then
      var body := s[1..];
      var endIndex := IndexOf(body, [s[0]], 0);
      if endIndex == -1 then
        Some(ValueScan(DecodeText(body, AttributeValue, decode), true, |s|, []))
      else
        assert OccursAt(body, [s[0]], endIndex) && body[endIndex] == s[1 + endIndex];
        Some(ValueScan(DecodeText(body[..endIndex], AttributeValue, decode), true, endIndex + 2, []))
    else
      var k := SpanOf(s, IsUnquotedValueChar, 0);
      SpanOfAll(s, IsUnquotedValueChar, 0);
      if k == 0 then None
      else
        Some(ValueScan(DecodeText(s[..k], AttributeValue, decode), false, k,
                       Repeat(UnexpectedCharacterInUnquotedAttributeValue, CountWhere(s[..k], IsUnexpectedInValue))))
  }

  /**
   * `parseAttributeValue`: consumes the value `ScanAttributeValue` describes
   * and returns its decoded text, whether it was quoted, and a location that
   * covers the quotes too; nothing is consumed when there is no value.
   */
  method ParseAttributeValue(ctx: ParserContext) returns (value: Option<AttrValue>)
    requires ctx.Valid()
    modifies ctx`source, ctx`offset, ctx`line, ctx`column, ctx`errors
    ensures ctx.Valid()
    ensures var r := ScanAttributeValue(old(ctx.source), ctx.options.decodeEntities);
      && (r.None? ==> value.None? && ctx.offset == old(ctx.offset) && ctx.errors == old(ctx.errors))
      && (r.Some? ==>
            && value.Some? && value.value.content == r.value.content && value.value.isQuoted == r.value.isQuoted
            && ctx.offset == old(ctx.offset) + r.value.length
            && ctx.errors == old(ctx.errors) + r.value.errors)
    ensures value.Some? ==>
      LocOk(value.value.loc, ctx.originalSource)
      && value.value.loc.start.offset == old(ctx.offset) && value.value.loc.end.offset == ctx.offset
    ensures value.Some? && value.value.isQuoted ==> value.value.loc.source != [] && IsQuote(value.value.loc.source[0])
  {
    ghost var s := ctx.source;
    var start := ctx.Cursor();
    var content: string;
    var isQuoted := ctx.source != [] && IsQuote(ctx.source[0]);
    if isQuoted {
      var quote := ctx.source[0];
      ctx.AdvanceBy(1);
      var endIndex := IndexOf(ctx.source, [quote], 0);
      if endIndex == -1 {
        assert ctx.source[..|ctx.source|] == ctx.source;
        content := ParseTextData(ctx, |ctx.source|, AttributeValue);
      } else {
        assert OccursAt(ctx.source, [quote], endIndex);
        content := ParseTextData(ctx, endIndex, AttributeValue);
        ctx.AdvanceBy(1);
      }
    } else {
      var k := SpanOf(ctx.source, IsUnquotedValueChar, 0);
      if k == 0 {
        return None;
      }
      EmitPerChar(ctx, ctx.source[..k], IsUnexpectedInValue, UnexpectedCharacterInUnquotedAttributeValue);
      content := ParseTextData(ctx, k, AttributeValue);
    }
    var loc := ctx.GetSelection(start, None);
    if isQuoted {
      assert loc.source == ctx.originalSource[start.offset..ctx.offset];
      assert ctx.originalSource[start.offset] == s[0];
    }
    value := Some(AttrValue(content, isQuoted, loc));
  }

  /** Escaping never writes a quote character: both quotes become references. */
  lemma {:induction false} EscapeHasNoQuote(s: string, q: char)
    requires IsQuote(q)
    ensures q !in Escape(s)
  {
    if s != [] {
      EscapeHasNoQuote(s[1..], q);
      assert Escape(s) == EscapeChar(s[0]) + Escape(s[1..]);
    }
  }

  /**
   * A quoted value read back: the escaped text of `v` between two quotes is
   * scanned, with the default decoder, as exactly `v`, consuming both quotes.
   */
  lemma QuotedValueRoundTrip(v: string, q: char, rest: string)
    requires IsQuote(q)
    ensures ScanAttributeValue([q] + Escape(v) + [q] + rest, DefaultDecodeEntities)
         == Some(ValueScan(v, true, |Escape(v)| + 2, []))
  {
    var e := Escape(v);
    var s := [q] + e + [q] + rest;
    assert s[1..] == e + [q] + rest;
    EscapedCloseQuote(v, q, rest);
    QuotedScan(s, DefaultDecodeEntities, |e|);
    assert s[1..][..|e|] == e;
    DecodeTextEscape(v, AttributeValue);
  }

  /** After escaped text, the first quote is the one that follows it. */
  lemma EscapedCloseQuote(v: string, q: char, rest: string)
    requires IsQuote(q)
    ensures IndexOf(Escape(v) + [q] + rest, [q], 0) == |Escape(v)|
  {
    var e := Escape(v);
    var body := e + [q] + rest;
    EscapeHasNoQuote(v, q);
    forall i | 0 <= i < |e| ensures !OccursAt(body, [q], i) {
      assert body[i] == e[i];
      OccursAtChar(body, q, i);
    }
    OccursAtChar(body, q, |e|);
    IndexOfFirst(body, [q], 0, |e|);
  }

  /** A quoted value closed at index `k` of the text after the opening quote. */
  lemma QuotedScan(s: string, decode: (string, bool) -> string, k: nat)
    requires s != [] && IsQuote(s[0]) && IndexOf(s[1..], [s[0]], 0) == k
    ensures ScanAttributeValue(s, decode) == Some(ValueScan(DecodeText(s[1..][..k], AttributeValue, decode), true, k + 2, []))
  {
  }

  /**
   * `[^\t\r\n\f />]`: neither whitespace nor the end of a tag. Tag names,
   * the first character of an attribute name, and the character that must
   * not follow an attribute directly are all of this class.
   */
  predicate IsTagChar(c: char) {
    !IsHtmlSpace(c) && c != '/' && c != '>'
  }

  /** `[^\t\r\n\f />=]`, a later character of an attribute name. */
  predicate IsAttrNameChar(c: char) {
    IsTagChar(c) && c != '='
  }

  /** `["'<]`, reported inside an attribute name. */
  predicate IsUnexpectedInName(c: char) {
    c == '"' || c == '\'' || c == '<'
  }

  /** Length of `/^[^\t\r\n\f />][^\t\r\n\f />=]*\/` at the start of `s`. */
  function AttrNameLength(s: string): (k: nat)
    requires s != [] && IsTagChar(s[0])
    ensures 1 <= k <= |s|
    ensures forall i :: 1 <= i < k ==> IsAttrNameChar(s[i])
    ensures k == |s| || !IsAttrNameChar(s[k])
  {
    SpanOfAll(s, IsAttrNameChar, 1);
    1 + SpanOf(s, IsAttrNameChar, 1)
  }

  /**
   * `/^[\t\r\n\f ]*=/` on the text after a name: when it matches, the
   * index at which the value begins, past the `=` and the whitespace after it.
   */
  function EqualsAt(t: string): (r: Option<nat>)
    ensures r.Some? ==> r.value <= |t|
    ensures r.Some? <==> SpanOf(t, IsHtmlSpace, 0) < |t| && t[SpanOf(t, IsHtmlSpace, 0)] == '='
  {
    var k := SpanOf(t, IsHtmlSpace, 0);
    if k < |t| && t[k] == '=' then
      var u := t[k + 1..];
      Some(k + 1 + SpanOf(u, IsHtmlSpace, 0))
    else None
  }

  /** An attribute as `parseAttribute` reads it: its name, where its value begins, the value, and the length consumed. */
  datatype AttrScan = AttrScan(name: string, valueAt: Option<nat>, value: Option<ValueScan>, length: nat)

  function ScanAttribute(s: string, decode: (string, bool) -> string): (a: AttrScan)
    requires s != [] && IsTagChar(s[0])
    ensures a.name == s[..AttrNameLength(s)]
    ensures |a.name| <= a.length <= |s|
    ensures a.valueAt.None? ==> a.value.None? && a.length == |a.name|
    ensures a.valueAt.Some? ==> |a.name| <= a.valueAt.value <= |s|
  {
    var k := AttrNameLength(s);
    var eq := EqualsAt(s[k..]);
    if eq.None? then AttrScan(s[..k], None, None, k)
    else
      var v := ScanAttributeValue(s[k..][eq.value..], decode);
      AttrScan(s[..k], Some(k + eq.value), v, k + eq.value + (if v.Some? then v.value.length else 0))
  }

  /** The diagnostics about a name: a duplicate, a leading `=`, then one per quote or `<` in it. */
  function NameErrors(name: string, names: set<string>): seq<ErrorCode> {
    (if name in names then [DuplicateAttribute] else [])
    + (if name != [] && name[0] == '=' then [UnexpectedEqualsSignBeforeAttributeName] else [])
    + Repeat(UnexpectedCharacterInAttributeName, CountWhere(name, IsUnexpectedInName))
  }

  /** Outside `v-pre`, a name spelled as a directive is read as one. */
  predicate IsDirectiveAttr(name: string, inVPre: bool) {
    !inVPre && IsDirectiveSyntax(name)
  }

  /** The bracketed argument of the directive is missing its closing bracket. */
  predicate Unterminated(name: string)
    requires IsDirectiveSyntax(name)
  {
    var d := DecomposeDirective(name);
    d.arg.Some? && d.arg.value.unterminated
  }

  /** What the directive-or-attribute decision reports: an unterminated dynamic argument, or `v-` without a name. */
  function DirectiveErrors(name: string, inVPre: bool): seq<ErrorCode> {
    if IsDirectiveAttr(name, inVPre) then (if Unterminated(name) then [XMissingDynamicDirectiveArgumentEnd] else [])
    else if !inVPre && StartsWith(name, "v-") then [XMissingDirectiveName]
    else []
  }

  /** What the value part reports: a missing value after `=`, or the value's own diagnostics. */
  function ValueErrors(a: AttrScan): seq<ErrorCode> {
    if a.valueAt.Some? && a.value.None? then [MissingAttributeValue]
    else if a.value.Some? then a.value.value.errors
    else []
  }

  /** Everything `parseAttribute` reports, in the order it reports it. */
  function AttributeErrors(a: AttrScan, names: set<string>, inVPre: bool): seq<ErrorCode> {
    NameErrors(a.name, names) + ValueErrors(a) + DirectiveErrors(a.name, inVPre)
  }

  /** The name scan of `parseAttribute`: its diagnostics, then the name is consumed. */
  method ParseAttributeName(ctx: ParserContext, names: set<string>) returns (name: string)
    requires ctx.Valid() && ctx.source != [] && IsTagChar(ctx.source[0])
    modifies ctx`source, ctx`offset, ctx`line, ctx`column, ctx`errors
    ensures ctx.Valid()
    ensures name == old(ctx.source)[..AttrNameLength(old(ctx.source))]
    ensures ctx.offset == old(ctx.offset) + |name|
    ensures ctx.errors == old(ctx.errors) + NameErrors(name, names)
  {
    var k := AttrNameLength(ctx.source);
    name := ctx.source[..k];
    ghost var dup := if name in names then [DuplicateAttribute] else [];
    ghost var eq := if name[0] == '=' then [UnexpectedEqualsSignBeforeAttributeName] else [];
    if name in names {
      ctx.EmitError(DuplicateAttribute);
    }
    if name[0] == '=' {
      ctx.EmitError(UnexpectedEqualsSignBeforeAttributeName);
    }
    assert ctx.errors == old(ctx.errors) + (dup + eq);
    EmitPerChar(ctx, name, IsUnexpectedInName, UnexpectedCharacterInAttributeName);
    AppendAssoc(old(ctx.errors), dup + eq, Repeat(UnexpectedCharacterInAttributeName, CountWhere(name, IsUnexpectedInName)));
    ctx.AdvanceBy(k);
  }

  /**
   * The value part of `parseAttribute`: when an `=` follows, the whitespace
   * around it is skipped and the value read, a missing one being reported.
   */
  method ParseEqualsValue(ctx: ParserContext) returns (value: Option<AttrValue>)
    requires ctx.Valid()
    modifies ctx`source, ctx`offset, ctx`line, ctx`column, ctx`errors
    ensures ctx.Valid()
    ensures var eq := EqualsAt(old(ctx.source));
      && (eq.None? ==> value.None? && ctx.offset == old(ctx.offset) && ctx.errors == old(ctx.errors))
      && (eq.Some? ==>
            var r := ScanAttributeValue(old(ctx.source)[eq.value..], ctx.options.decodeEntities);
            && ctx.offset == old(ctx.offset) + eq.value + (if r.Some? then r.value.length else 0)
            && (r.None? ==> value.None? && ctx.errors == old(ctx.errors) + [MissingAttributeValue])
            && (r.Some? ==>
                  && value.Some? && value.value.content == r.value.content && value.value.isQuoted == r.value.isQuoted
                  && ctx.errors == old(ctx.errors) + r.value.errors
                  && value.value.loc.start.offset == old(ctx.offset) + eq.value))
    ensures value.Some? ==>
      && LocOk(value.value.loc, ctx.originalSource) && value.value.loc.end.offset == ctx.offset
      && (value.value.isQuoted ==> value.value.loc.source != [] && IsQuote(value.value.loc.source[0]))
  {
    var k := SpanOf(ctx.source, IsHtmlSpace, 0);
    if k < |ctx.source| && ctx.source[k] == '=' {
      SkipEquals(ctx);
      value := ParseAttributeValue(ctx);
      if value.None? {
        ctx.EmitError(MissingAttributeValue);
      }
    } else {
      value := None;
    }
  }

  /** Steps over the `=` of an attribute and the whitespace on both sides of it. */
  method SkipEquals(ctx: ParserContext)
    requires ctx.Valid() && EqualsAt(ctx.source).Some?
    modifies ctx`source, ctx`offset, ctx`line, ctx`column
    ensures ctx.Valid()
    ensures ctx.source == old(ctx.source)[EqualsAt(old(ctx.source)).value..]
    ensures ctx.offset == old(ctx.offset) + EqualsAt(old(ctx.source)).value
  {
    ghost var s, o := ctx.source, ctx.offset;
    ctx.AdvanceSpaces();
    ghost var s1, o1 := ctx.source, ctx.offset;
    ctx.AdvanceBy(1);
    ghost var s2, o2 := ctx.source, ctx.offset;
    ctx.AdvanceSpaces();
    EqualsSkipped(s, o, s1, o1, s2, o2, ctx.source, ctx.offset);
  }

  /** Spaces, the `=`, then spaces skipped one after the other end where `EqualsAt` says. */
  lemma EqualsSkipped(s: string, o: int, s1: string, o1: int, s2: string, o2: int, s3: string, o3: int)
    requires EqualsAt(s).Some?
    requires s1 == s[SpanOf(s, IsHtmlSpace, 0)..] && o1 == o + SpanOf(s, IsHtmlSpace, 0)
    requires s1 != [] && s2 == s1[1..] && o2 == o1 + 1
    requires s3 == s2[SpanOf(s2, IsHtmlSpace, 0)..] && o3 == o2 + SpanOf(s2, IsHtmlSpace, 0)
    ensures s3 == s[EqualsAt(s).value..] && o3 == o + EqualsAt(s).value
  {
    var k, j := SpanOf(s, IsHtmlSpace, 0), SpanOf(s2, IsHtmlSpace, 0);
    assert k < |s| && k + 1 + j <= |s| && s2 == s[k + 1..] && s3 == s[k + 1 + j..] by {
      EqualsAtParts(s);
      DropThree(s, k, j, s1, s2, s3);
    }
    assert EqualsAt(s).value == k + 1 + j by {
      EqualsAtParts(s);
    }
  }

  /** Dropping `k` characters, then one, then `j` is dropping `k + 1 + j`. */
  lemma DropThree(s: string, k: nat, j: nat, s1: string, s2: string, s3: string)
    requires k < |s| && k + 1 + j <= |s|
    requires s1 == s[k..] && s2 == s1[1..] && s3 == s2[j..]
    ensures s2 == s[k + 1..] && s3 == s[k + 1 + j..]
  {
    DropDrop(s, k, 1);
    DropDrop(s, k + 1, j);
  }

  /** Where the `=` and the whitespace around it end. */
  lemma EqualsAtParts(s: string)
    requires EqualsAt(s).Some?
    ensures var k := SpanOf(s, IsHtmlSpace, 0);
      && k < |s| && s[k] == '='
      && EqualsAt(s).value == k + 1 + SpanOf(s[k + 1..], IsHtmlSpace, 0)
  {
  }

  /**
   * Where the expression of a quoted directive value lies: the text between
   * the quotes, the closing quote being left out only when it is there, with
   * its end reached by moving over that raw text.
   */
  function QuotedExpLoc(valueLoc: SourceLocation): (loc: SourceLocation)
    requires valueLoc.source != []
    ensures loc.start.offset == valueLoc.start.offset + 1
  {
    var src := valueLoc.source;
    var closed := |src| >= 2 && src[|src| - 1] == src[0];
    var inner := src[1..|src| - (if closed then 1 else 0)];
    var start := Position(valueLoc.start.line, valueLoc.start.column + 1, valueLoc.start.offset + 1);
    SourceLocation(start, AdvancePosition(start, inner, |inner|), inner)
  }

  /** The expression's location is a slice of the template: the value's location without its quotes. */
  lemma QuotedExpLocOk(valueLoc: SourceLocation, orig: string)
    requires LocOk(valueLoc, orig) && valueLoc.source != []
    ensures LocOk(QuotedExpLoc(valueLoc), orig)
    ensures var src := valueLoc.source;
      QuotedExpLoc(valueLoc).source == (if |src| >= 2 && src[|src| - 1] == src[0] then src[1..|src| - 1] else src[1..])
  {
    var src := valueLoc.source;
    var m := |src| - (if |src| >= 2 && src[|src| - 1] == src[0] then 1 else 0);
    SliceInside(orig, valueLoc.start.offset, src, 1, m);
  }

  /**
   * The expression location of a quoted directive value as `parseAttribute`
   * computes it: the end is reached by moving over the DECODED content from
   * just after the opening quote, while the text is the value's text with
   * its first and last characters dropped.
   */
  function QuotedExpLocAsWritten(valueLoc: SourceLocation, content: string): (loc: SourceLocation)
    ensures loc.start.offset == valueLoc.start.offset + 1
    ensures loc.end.offset == valueLoc.start.offset + 1 + |content|
  {
    var start := Position(valueLoc.start.line, valueLoc.start.column + 1, valueLoc.start.offset + 1);
    SourceLocation(start, AdvancePosition(start, content, |content|), JsSlice(valueLoc.source, 1, -1))
  }

  /**
   * In `:a="&amp;"` the value decodes to `&`: the location computed as written
   * spans one character but carries the five characters `&amp;`, so it is not
   * a slice of the template (`QuotedExpLocOk` shows the corrected one always is).
   */
  lemma QuotedExpLocAsWrittenBreaks()
    ensures var orig := ":a=\"&amp;\"";
            var valueLoc := SourceLocation(Position(1, 4, 3), Position(1, 11, 10), orig[3..10]);
      && ScanAttributeValue(orig[3..], DefaultDecodeEntities) == Some(ValueScan("&", true, 7, []))
      && LocOk(valueLoc, orig)
      && !LocOk(QuotedExpLocAsWritten(valueLoc, "&"), orig)
  {
    var orig := ":a=\"&amp;\"";
    assert orig[3..] == "\"&amp;\"";
    AmpValueScan();
    var valueLoc := SourceLocation(Position(1, 4, 3), Position(1, 11, 10), orig[3..10]);
    assert valueLoc.source == "\"&amp;\"";
    assert JsSlice(valueLoc.source, 1, -1) == valueLoc.source[1..6];
    assert |orig[4..5]| == 1 && |valueLoc.source[1..6]| == 5;
  }

  /**
   * In `:x="ab` at the end of the input the quote is never closed and the
   * value reads as `ab`: the text computed as written drops the `b` as if
   * it were a closing quote, where the corrected location keeps it.
   */
  lemma QuotedExpLocAsWrittenUnclosed()
    ensures var orig := ":x=\"ab";
            var valueLoc := SourceLocation(Position(1, 4, 3), Position(1, 7, 6), orig[3..]);
      && ScanAttributeValue(orig[3..], DefaultDecodeEntities) == Some(ValueScan("ab", true, 3, []))
      && LocOk(valueLoc, orig)
      && QuotedExpLoc(valueLoc).source == "ab"
      && QuotedExpLocAsWritten(valueLoc, "ab").source == "a"
  {
    var orig := ":x=\"ab";
    var v := orig[3..];
    assert v == "\"ab";
    var body := v[1..];
    assert body == "ab";
    forall i | 0 <= i ensures !OccursAt(body, "\"", i) {
      OccursAtChar(body, '"', i);
    }
    assert IndexOf(body, [v[0]], 0) == -1;
    assert DecodeEntities(body) == "ab" by {
      assert '&' !in body;
    }
    assert JsSlice(v, 1, -1) == v[1..2];
  }

  lemma AmpValueScan()
    ensures ScanAttributeValue("\"&amp;\"", DefaultDecodeEntities) == Some(ValueScan("&", true, 7, []))
  {
    var s := "\"&amp;\"";
    var body := s[1..];
    assert body == "&amp;\"";
    forall i | 0 <= i < 5 ensures !OccursAt(body, "\"", i) {
      OccursAtChar(body, '"', i);
    }
    OccursAtChar(body, '"', 5);
    IndexOfFirst(body, "\"", 0, 5);
    QuotedScan(s, DefaultDecodeEntities, 5);
    assert body[..5] == "&amp;";
    DecodeAmp();
  }

  lemma DecodeAmp()
    ensures DecodeEntities("&amp;") == "&"
  {
    var s := "&amp;";
    assert s[..4][1] == 'a' != "&gt;"[1] && s[..4][1] != "&lt;"[1];
    assert s[..5] == "&amp;" && s[5..] == [];
  }

  /**
   * The directive branch of `parseAttribute`: the parts `DecomposeDirective`
   * finds, the argument located inside the name, and the value as the
   * expression, located between its quotes when it was quoted.
   */
  method ParseDirective(ctx: ParserContext, name: string, start: Position, value: Option<AttrValue>, loc: SourceLocation)
    returns (prop: Prop)
    requires ctx.Valid() && IsDirectiveSyntax(name)
    requires 0 <= start.offset && start.offset + |name| <= |ctx.originalSource|
    requires ctx.originalSource[start.offset..start.offset + |name|] == name
    requires value.Some? ==> LocOk(value.value.loc, ctx.originalSource)
    requires value.Some? && value.value.isQuoted ==> value.value.loc.source != []
    modifies ctx`errors
    ensures ctx.errors == old(ctx.errors) + (if Unterminated(name) then [XMissingDynamicDirectiveArgumentEnd] else [])
    ensures var d := DecomposeDirective(name);
      && prop.Directive? && prop.name == d.dirName && prop.modifiers == d.modifiers && prop.loc == loc
      && (prop.exp.Some? <==> value.Some?)
      && (prop.exp.Some? ==>
            && prop.exp.value.content == value.value.content && !prop.exp.value.isStatic
            && prop.exp.value.loc == (if value.value.isQuoted then QuotedExpLoc(value.value.loc) else value.value.loc))
      && (prop.arg.Some? <==> d.arg.Some?)
      && (prop.arg.Some? ==>
            && prop.arg.value.content == d.arg.value.content && prop.arg.value.isStatic == d.arg.value.isStatic
            && prop.arg.value.loc.start.offset == start.offset + d.arg.value.start
            && prop.arg.value.loc.end.offset == start.offset + d.arg.value.end
            && prop.arg.value.loc.source == name[d.arg.value.start..d.arg.value.end])
    ensures prop.exp.Some? ==> LocOk(prop.exp.value.loc, ctx.originalSource)
    ensures prop.arg.Some? ==> LocOk(prop.arg.value.loc, ctx.originalSource)
  {
    var d := DecomposeDirective(name);
    var arg: Option<Expression> := None;
    if d.arg.Some? {
      var a := ParseDirectiveArg(ctx, name, start, d.arg.value);
      arg := Some(a);
    }
    var exp: Option<Expression> := None;
    if value.Some? {
      var expLoc := value.value.loc;
      if value.value.isQuoted {
        expLoc := QuotedExpLoc(value.value.loc);
        QuotedExpLocOk(value.value.loc, ctx.originalSource);
      }
      exp := Some(SimpleExpression(value.value.content, false, NotConstant, expLoc));
    }
    prop := Directive(d.dirName, exp, arg, d.modifiers, loc);
  }

  /**
   * The argument of a directive as an expression: static ones can be
   * stringified, and its location is the argument's span in the name,
   * reached with `getNewPosition` from the start of the attribute.
   */
  method ParseDirectiveArg(ctx: ParserContext, name: string, start: Position, a: DirectiveArg) returns (arg: Expression)
    requires ctx.Valid() && a.start <= a.end <= |name|
    requires 0 <= start.offset && start.offset + |name| <= |ctx.originalSource|
    requires ctx.originalSource[start.offset..start.offset + |name|] == name
    modifies ctx`errors
    ensures ctx.errors == old(ctx.errors) + (if a.unterminated then [XMissingDynamicDirectiveArgumentEnd] else [])
    ensures arg.content == a.content && arg.isStatic == a.isStatic
    ensures arg.constType == (if a.isStatic then CanStringify else NotConstant)
    ensures arg.loc.start.offset == start.offset + a.start && arg.loc.end.offset == start.offset + a.end
    ensures arg.loc.source == name[a.start..a.end]
    ensures LocOk(arg.loc, ctx.originalSource)
  {
    var argLoc := ctx.GetSelection(ctx.GetNewPosition(start, a.start), Some(ctx.GetNewPosition(start, a.end)));
    assert argLoc.source == ctx.originalSource[start.offset + a.start..start.offset + a.end];
    SliceInside(ctx.originalSource, start.offset, name, a.start, a.end);
    if a.unterminated {
      ctx.EmitError(XMissingDynamicDirectiveArgumentEnd);
    }
    arg := SimpleExpression(a.content, a.isStatic, if a.isStatic then CanStringify else NotConstant, argLoc);
  }

  /** The decoded text of a scanned value, if any. */
  function ContentOf(v: Option<ValueScan>): Option<string> {
    if v.Some? then Some(v.value.content) else None
  }

  /**
   * How `parseAttribute` turns a name and the text of its value into a prop:
   * a directive with the parts `DecomposeDirective` finds, or a plain attribute.
   */
  predicate ReadsAs(prop: Prop, name: string, content: Option<string>, inVPre: bool) {
    if IsDirectiveAttr(name, inVPre) then
      var d := DecomposeDirective(name);
      && prop.Directive? && prop.name == d.dirName && prop.modifiers == d.modifiers
      && (prop.exp.Some? <==> content.Some?)
      && (prop.exp.Some? ==> prop.exp.value.content == content.value && !prop.exp.value.isStatic)
      && (prop.arg.Some? <==> d.arg.Some?)
      && (prop.arg.Some? ==>
            && prop.arg.value.content == d.arg.value.content && prop.arg.value.isStatic == d.arg.value.isStatic
            && prop.arg.value.loc.source == name[d.arg.value.start..d.arg.value.end])
    else
      && prop.Attribute? && prop.name == name
      && (prop.value.Some? <==> content.Some?)
      && (prop.value.Some? ==> prop.value.value.content == content.value)
  }

  /** The last step of `parseAttribute`: a directive when the name is spelled as one outside `v-pre`, else a plain attribute. */
  method BuildProp(ctx: ParserContext, name: string, start: Position, value: Option<AttrValue>, loc: SourceLocation)
    returns (prop: Prop)
    requires ctx.Valid()
    requires 0 <= start.offset && start.offset + |name| <= |ctx.originalSource|
    requires ctx.originalSource[start.offset..start.offset + |name|] == name
    requires LocOk(loc, ctx.originalSource)
    requires value.Some? ==> LocOk(value.value.loc, ctx.originalSource)
    requires value.Some? && value.value.isQuoted ==> value.value.loc.source != []
    modifies ctx`errors
    ensures ctx.errors == old(ctx.errors) + DirectiveErrors(name, ctx.inVPre)
    ensures ReadsAs(prop, name, if value.Some? then Some(value.value.content) else None, ctx.inVPre)
    ensures PropOk(prop, ctx.originalSource) && prop.loc == loc
  {
    if !ctx.inVPre && IsDirectiveSyntax(name) {
      prop := ParseDirective(ctx, name, start, value, loc);
    } else {
      if !ctx.inVPre && StartsWith(name, "v-") {
        ctx.EmitError(XMissingDirectiveName);
      }
      prop := Attribute(name, if value.Some? then Some(TextValue(value.value.content, value.value.loc)) else None, loc);
    }
  }

  /** The pieces `ScanAttribute` is made of: the name, then the value part read after it. */
  lemma ScanAttributeParts(s: string, decode: (string, bool) -> string)
    requires s != [] && IsTagChar(s[0])
    ensures var a := ScanAttribute(s, decode);
            var k := AttrNameLength(s);
            var eq := EqualsAt(s[k..]);
      && (eq.None? ==> a.valueAt.None? && a.value.None? && a.length == k)
      && (eq.Some? ==>
            && a.valueAt == Some(k + eq.value)
            && a.value == ScanAttributeValue(s[k..][eq.value..], decode)
            && a.length == k + eq.value + (if a.value.Some? then a.value.value.length else 0))
  {
  }

  /**
   * The reading half of `parseAttribute`: the name, then the value part,
   * as `ScanAttribute` describes them, with the diagnostics of both.
   */
  method ParseNameAndValue(ctx: ParserContext, names: set<string>) returns (name: string, value: Option<AttrValue>)
    requires ctx.Valid() && ctx.source != [] && IsTagChar(ctx.source[0])
    modifies ctx`source, ctx`offset, ctx`line, ctx`column, ctx`errors
    ensures ctx.Valid()
    ensures var a := ScanAttribute(old(ctx.source), ctx.options.decodeEntities);
      && name == a.name && ctx.offset == old(ctx.offset) + a.length
      && ctx.errors == old(ctx.errors) + (NameErrors(name, names) + ValueErrors(a))
      && (if value.Some? then Some(value.value.content) else None) == ContentOf(a.value)
    ensures old(ctx.offset) + |name| <= |ctx.originalSource|
    ensures ctx.originalSource[old(ctx.offset)..old(ctx.offset) + |name|] == name
    ensures value.Some? ==> LocOk(value.value.loc, ctx.originalSource)
    ensures value.Some? && value.value.isQuoted ==> value.value.loc.source != []
    ensures old(ctx.offset) < ctx.offset
  {
    ghost var s := ctx.source;
    ghost var a := ScanAttribute(s, ctx.options.decodeEntities);
    ScanAttributeParts(s, ctx.options.decodeEntities);
    name := ParseAttributeName(ctx, names);
    assert ctx.originalSource[old(ctx.offset)..old(ctx.offset) + |name|] == name by {
      SliceOfSuffix(ctx.originalSource, old(ctx.offset), 0, |name|);
    }
    ghost var e1 := ctx.errors;
    assert ctx.source == s[|name|..];
    value := ParseEqualsValue(ctx);
    AppendAssoc(old(ctx.errors), NameErrors(name, names), ValueErrors(a));
  }

  /**
   * `parseAttribute`: consumes the attribute `ScanAttribute` describes,
   * records its name, reports what `AttributeErrors` lists, and returns a
   * directive or a plain attribute whose locations are slices of the template.
   */
  method ParseAttribute(ctx: ParserContext, names: set<string>) returns (prop: Prop, names': set<string>)
    requires ctx.Valid() && ctx.source != [] && IsTagChar(ctx.source[0])
    modifies ctx`source, ctx`offset, ctx`line, ctx`column, ctx`errors
    ensures ctx.Valid()
    ensures var a := ScanAttribute(old(ctx.source), ctx.options.decodeEntities);
      && names' == names + {a.name}
      && ctx.offset == old(ctx.offset) + a.length
      && ctx.errors == old(ctx.errors) + AttributeErrors(a, names, ctx.inVPre)
      && ReadsAs(prop, a.name, ContentOf(a.value), ctx.inVPre)
    ensures PropOk(prop, ctx.originalSource)
    ensures prop.loc.start.offset == old(ctx.offset) && prop.loc.end.offset == ctx.offset
    ensures old(ctx.offset) < ctx.offset
    ensures ctx.inVPre ==> prop.Attribute?
  {
    ghost var a := ScanAttribute(ctx.source, ctx.options.decodeEntities);
    var start := ctx.Cursor();
    var name, value := ParseNameAndValue(ctx, names);
    names' := names + {name};
    var loc := ctx.GetSelection(start, None);
    ghost var e1 := ctx.errors;
    prop := BuildProp(ctx, name, start, value, loc);
    ReadsAsSame(prop, name, a.name, if value.Some? then Some(value.value.content) else None, ContentOf(a.value), ctx.inVPre);
    AppendAssoc(old(ctx.errors), NameErrors(name, names) + ValueErrors(a), DirectiveErrors(name, ctx.inVPre));
  }

  lemma {:induction false} ReadsAsSame(prop: Prop, name: string, name': string, content: Option<string>, content': Option<string>, inVPre: bool)
    requires name == name' && content == content' && ReadsAs(prop, name, content, inVPre)
    ensures ReadsAs(prop, name', content', inVPre)
  {
  }

  /** `value.replace(/\s+/g, ' ').trim()`: a class list with its whitespace runs collapsed and its ends trimmed. */
  function CondenseClass(s: string): string {
    JsTrim(CollapseRuns(s, IsJsSpace))
  }

  /** No whitespace at either end and no two whitespace characters side by side. */
  predicate Condensed(c: string) {
    NoAdjacent(c, IsJsSpace) && (c != [] ==> !IsJsSpace(c[0]) && !IsJsSpace(c[|c| - 1]))
  }

  /**
   * The condensed class list is the class names of the value, in order,
   * separated by single spaces: the same words, no whitespace at the ends,
   * and one space, never another whitespace character, between two words.
   */
  lemma CondenseClassSpec(s: string)
    ensures Condensed(CondenseClass(s))
    ensures forall i :: 0 <= i < |CondenseClass(s)| && IsJsSpace(CondenseClass(s)[i]) ==> CondenseClass(s)[i] == ' '
    ensures Words(CondenseClass(s), IsJsSpace) == Words(s, IsJsSpace)
    ensures CondenseClass(s) == Unwords(Words(s, IsJsSpace))
    ensures Strip(CondenseClass(s), IsJsSpace) == Strip(s, IsJsSpace)
  {
    var c := CollapseRuns(s, IsJsSpace);
    CollapseNoAdjacent(s, IsJsSpace);
    CollapseKeepsOthers(s, IsJsSpace);
    CollapseKeepsWords(s, IsJsSpace);
    TrimCondenses(c);
    TrimKeepsWords(c);
    CondensedIsUnwords(CondenseClass(s));
  }

  /** Trimming a string without adjacent whitespace condenses it and keeps its other characters. */
  lemma TrimCondenses(c: string)
    requires NoAdjacent(c, IsJsSpace)
    requires forall i :: 0 <= i < |c| && IsJsSpace(c[i]) ==> c[i] == ' '
    ensures Condensed(JsTrim(c))
    ensures forall i :: 0 <= i < |JsTrim(c)| && IsJsSpace(JsTrim(c)[i]) ==> JsTrim(c)[i] == ' '
    ensures Strip(JsTrim(c), IsJsSpace) == Strip(c, IsJsSpace)
  {
    var r := JsTrim(c);
    JsTrimSpec(c);
    if r == [] {
      StripOfRun(c, IsJsSpace, |c|);
      assert c[|c|..] == [];
    } else {
      var a, b := SpanOf(c, IsJsSpace, 0), BackSpan(c, IsJsSpace, |c|);
      assert r == c[a..|c| - b];
      forall i | 0 <= i < |r| - 1 ensures !(IsJsSpace(r[i]) && IsJsSpace(r[i + 1])) {
        assert r[i] == c[a + i] && r[i + 1] == c[a + i + 1];
      }
      forall i | 0 <= i < |r| && IsJsSpace(r[i]) ensures r[i] == ' ' {
        assert r[i] == c[a + i];
      }
      SpanOfAll(c, IsJsSpace, 0);
      BackSpanAll(c, IsJsSpace, |c|);
      TrimKeepsOthers(c, a, b);
    }
  }

  /** Trimming keeps the words. */
  lemma TrimKeepsWords(c: string)
    ensures Words(JsTrim(c), IsJsSpace) == Words(c, IsJsSpace)
  {
    var r := JsTrim(c);
    JsTrimSpec(c);
    if r == [] {
      WordsSkip(c, IsJsSpace, |c|);
      assert c[|c|..] == [];
    } else {
      var a, b := SpanOf(c, IsJsSpace, 0), BackSpan(c, IsJsSpace, |c|);
      SpanOfAll(c, IsJsSpace, 0);
      BackSpanAll(c, IsJsSpace, |c|);
      WordsOfMiddle(c, a, b);
    }
  }

  /** Whitespace cut from both ends leaves the words as they were. */
  lemma WordsOfMiddle(c: string, a: nat, b: nat)
    requires a + b <= |c|
    requires forall i :: 0 <= i < a ==> IsJsSpace(c[i])
    requires forall i :: |c| - b <= i < |c| ==> IsJsSpace(c[i])
    ensures Words(c[a..|c| - b], IsJsSpace) == Words(c, IsJsSpace)
  {
    var head, mid, tail := c[..a], c[a..|c| - b], c[|c| - b..];
    assert c == head + mid + tail;
    assert forall i :: 0 <= i < |head| ==> head[i] == c[i];
    assert forall i :: 0 <= i < |tail| ==> tail[i] == c[|c| - b + i];
    WordsBetweenSpaces(head, mid, tail);
  }

  /** Whitespace, a middle part and whitespace have the words of the middle part. */
  lemma WordsBetweenSpaces(head: string, mid: string, tail: string)
    requires forall i :: 0 <= i < |head| ==> IsJsSpace(head[i])
    requires forall i :: 0 <= i < |tail| ==> IsJsSpace(tail[i])
    ensures Words(head + mid + tail, IsJsSpace) == Words(mid, IsJsSpace)
  {
    var s := head + mid + tail;
    WordsSkip(s, IsJsSpace, |head|);
    assert s[|head|..] == mid + tail;
    WordsDropTail(mid, tail, IsJsSpace);
  }

  /** A condensed string whose only whitespace is the space is its words joined by single spaces. */
  lemma {:induction false} CondensedIsUnwords(c: string)
    requires Condensed(c)
    requires forall i :: 0 <= i < |c| && IsJsSpace(c[i]) ==> c[i] == ' '
    ensures c == Unwords(Words(c, IsJsSpace))
    decreases |c|
  {
    if c != [] {
      var k := RunEnd(c, IsJsSpace, 0);
      if k == |c| {
        assert c[..k] == c && c[k..] == [];
        WordsCons(c, [], IsJsSpace);
      } else {
        assert 0 < k && c[k] == ' ' && k + 1 < |c| && !IsJsSpace(c[k + 1]);
        CondensedSuffix(c, k + 1);
        CondensedIsUnwords(c[k + 1..]);
        UnwordsStep(c, k);
      }
    }
  }

  /** The first word, a single space, then the rest joined. */
  lemma UnwordsStep(c: string, k: nat)
    requires 0 < k && k + 1 < |c| && k == RunEnd(c, IsJsSpace, 0) && c[k] == ' ' && !IsJsSpace(c[k + 1])
    requires c[k + 1..] == Unwords(Words(c[k + 1..], IsJsSpace))
    ensures c == Unwords(Words(c, IsJsSpace))
  {
    var rest := c[k + 1..];
    assert c == c[..k] + c[k..] && c[k..][1..] == rest;
    assert forall i :: 0 <= i < k ==> c[..k][i] == c[i];
    WordsCons(c[..k], c[k..], IsJsSpace);
    WordsSkip(c[k..], IsJsSpace, 1);
    var ws := Words(rest, IsJsSpace);
    WordsNonEmpty(rest, IsJsSpace);
    UnwordsCons(c[..k], ws);
    SplitAround(c, k);
  }

  /** After a single space, what is left of a condensed string is condensed and starts a word. */
  lemma CondensedSuffix(c: string, j: nat)
    requires Condensed(c)
    requires forall i :: 0 <= i < |c| && IsJsSpace(c[i]) ==> c[i] == ' '
    requires 0 < j < |c| && IsJsSpace(c[j - 1])
    ensures Condensed(c[j..]) && !IsJsSpace(c[j])
    ensures forall i :: 0 <= i < |c[j..]| && IsJsSpace(c[j..][i]) ==> c[j..][i] == ' '
  {
    var rest := c[j..];
    assert !IsJsSpace(c[j]);
    forall i | 0 <= i < |rest| - 1 ensures !(IsJsSpace(rest[i]) && IsJsSpace(rest[i + 1])) {
      assert rest[i] == c[j + i] && rest[i + 1] == c[j + i + 1];
    }
  }

  /** Dropping whitespace from both ends drops nothing else. */
  lemma TrimKeepsOthers(c: string, a: nat, b: nat)
    requires a + b <= |c|
    requires forall i :: 0 <= i < a ==> IsJsSpace(c[i])
    requires forall i :: |c| - b <= i < |c| ==> IsJsSpace(c[i])
    ensures Strip(c[a..|c| - b], IsJsSpace) == Strip(c, IsJsSpace)
  {
    var head, mid, tail := c[..a], c[a..|c| - b], c[|c| - b..];
    assert c == head + mid + tail;
    assert forall i :: 0 <= i < |head| ==> head[i] == c[i];
    assert forall i :: 0 <= i < |tail| ==> tail[i] == c[|c| - b + i];
    StripBetweenSpaces(head, mid, tail);
  }

  /** Stripping whitespace from whitespace, a middle part and whitespace leaves the middle part stripped. */
  lemma StripBetweenSpaces(head: string, mid: string, tail: string)
    requires forall i :: 0 <= i < |head| ==> IsJsSpace(head[i])
    requires forall i :: 0 <= i < |tail| ==> IsJsSpace(tail[i])
    ensures Strip(head + mid + tail, IsJsSpace) == Strip(mid, IsJsSpace)
  {
    StripAppend(head + mid, tail, IsJsSpace);
    StripAppend(head, mid, IsJsSpace);
    StripOfRun(head, IsJsSpace, |head|);
    StripOfRun(tail, IsJsSpace, |tail|);
    assert head[|head|..] == [] && tail[|tail|..] == [];
  }

  /** Every prop is well formed and lies between offsets `a` and `b`. */
  ghost predicate PropsIn(props: seq<Prop>, orig: string, a: int, b: int) {
    forall p <- props :: PropOk(p, orig) && a <= p.loc.start.offset && p.loc.end.offset <= b
  }

  /** Every `class` attribute with a value has a condensed value. */
  predicate ClassesCondensed(props: seq<Prop>) {
    forall p <- props :: p.Attribute? && p.name == "class" && p.value.Some? ==> Condensed(p.value.value.content)
  }

  /** An attribute of a tag's attribute list and the offset of the template at which it starts. */
  datatype Listed = Listed(at: nat, scan: AttrScan)

  /**
   * The attributes `parseAttributes` reads from `s`, which starts at offset
   * `at`, in order: a stray `/` is skipped with the whitespace after it; an
   * attribute is scanned and the whitespace after it skipped; the list ends
   * at the end of the input, `>` or `/>`.
   */
  function ScanAttributes(s: string, at: nat, decode: (string, bool) -> string): (r: seq<Listed>)
    requires s == [] || !IsHtmlSpace(s[0])
    decreases |s|
  {
    if s == [] || StartsWith(s, ">") || StartsWith(s, "/>") then []
    else if StartsWith(s, "/") then
      var k := SpanOf(s[1..], IsHtmlSpace, 0);
      ScanAttributes(s[1..][k..], at + 1 + k, decode)
    else
      assert s[..1] == [s[0]];
      var a := ScanAttribute(s, decode);
      var k := SpanOf(s[a.length..], IsHtmlSpace, 0);
      [Listed(at, a)] + ScanAttributes(s[a.length..][k..], at + a.length + k, decode)
  }

  /** The value `parseAttributes` keeps for a scanned attribute: a `class` value is condensed. */
  function ListedContent(a: AttrScan): Option<string> {
    var c := ContentOf(a.value);
    if a.name == "class" && c.Some? then Some(CondenseClass(c.value)) else c
  }

  /** The prop is the attribute scanned at `l`: it spans the same text and reads as `parseAttributes` keeps it. */
  predicate ListedRead(p: Prop, l: Listed, inVPre: bool) {
    && p.loc.start.offset == l.at && p.loc.end.offset == l.at + l.scan.length
    && ReadsAs(p, l.scan.name, ListedContent(l.scan), inVPre)
  }

  /** One prop per scanned attribute, in the same order. */
  predicate PropsRead(props: seq<Prop>, scans: seq<Listed>, inVPre: bool) {
    |props| == |scans| && forall i :: 0 <= i < |props| ==> ListedRead(props[i], scans[i], inVPre)
  }

  /** A stray `/` that does not close the tag is skipped with the whitespace after it. */
  lemma ScanAttributesSlash(s: string, at: nat, decode: (string, bool) -> string)
    requires s != [] && !IsHtmlSpace(s[0]) && StartsWith(s, "/") && !StartsWith(s, "/>")
    ensures var k := SpanOf(s[1..], IsHtmlSpace, 0);
      ScanAttributes(s, at, decode) == ScanAttributes(s[1..][k..], at + 1 + k, decode)
  {
  }

  /** An attribute is scanned, then the whitespace after it skipped. */
  lemma ScanAttributesAttr(s: string, at: nat, decode: (string, bool) -> string)
    requires s != [] && IsTagChar(s[0]) && !StartsWith(s, ">") && !StartsWith(s, "/>") && !StartsWith(s, "/")
    ensures var a := ScanAttribute(s, decode);
            var k := SpanOf(s[a.length..], IsHtmlSpace, 0);
      ScanAttributes(s, at, decode) == [Listed(at, a)] + ScanAttributes(s[a.length..][k..], at + a.length + k, decode)
  {
    assert !(s == [] || StartsWith(s, ">") || StartsWith(s, "/>")) && !StartsWith(s, "/");
  }

  /**
   * The attributes scanned so far and those still to scan make up the whole
   * list: `rest` is what is left of `s0` after `done`.
   */
  predicate ScannedSoFar(s0: string, o0: nat, decode: (string, bool) -> string, done: seq<Listed>, rest: string, at: nat)
    requires s0 == [] || !IsHtmlSpace(s0[0])
    requires rest == [] || !IsHtmlSpace(rest[0])
  {
    ScanAttributes(s0, o0, decode) == done + ScanAttributes(rest, at, decode)
  }

  /** Skipping a stray `/` keeps the scanned attributes; `rest` is what is left at offset `at'`. */
  lemma ScannedSlash(s0: string, o0: nat, decode: (string, bool) -> string, done: seq<Listed>, s: string, at: nat,
                     rest: string, at': nat)
    requires s0 == [] || !IsHtmlSpace(s0[0])
    requires s != [] && !IsHtmlSpace(s[0]) && StartsWith(s, "/") && !StartsWith(s, "/>")
    requires ScannedSoFar(s0, o0, decode, done, s, at)
    requires var k := SpanOf(s[1..], IsHtmlSpace, 0); rest == s[1..][k..] && at' == at + 1 + k
    ensures rest == [] || !IsHtmlSpace(rest[0])
    ensures ScannedSoFar(s0, o0, decode, done, rest, at')
  {
    ScanAttributesSlash(s, at, decode);
  }

  /** Reading an attribute adds it to the scanned attributes; `rest` is what is left at offset `at'`. */
  lemma ScannedAttr(s0: string, o0: nat, decode: (string, bool) -> string, done: seq<Listed>, s: string, at: nat,
                    rest: string, at': nat)
    requires s0 == [] || !IsHtmlSpace(s0[0])
    requires s != [] && IsTagChar(s[0]) && !StartsWith(s, ">") && !StartsWith(s, "/>") && !StartsWith(s, "/")
    requires ScannedSoFar(s0, o0, decode, done, s, at)
    requires var a := ScanAttribute(s, decode);
             var k := SpanOf(s[a.length..], IsHtmlSpace, 0);
      rest == s[a.length..][k..] && at' == at + a.length + k
    requires rest == [] || !IsHtmlSpace(rest[0])
    ensures ScannedSoFar(s0, o0, decode, done + [Listed(at, ScanAttribute(s, decode))], rest, at')
  {
    ScanAttributesAttr(s, at, decode);
  }

  /** A prop read from the next scanned attribute extends the list. */
  lemma PropsReadSnoc(props: seq<Prop>, scans: seq<Listed>, p: Prop, l: Listed, inVPre: bool)
    requires PropsRead(props, scans, inVPre) && ListedRead(p, l, inVPre)
    ensures PropsRead(props + [p], scans + [l], inVPre)
  {
  }

  /** Condensing a `class` value turns a prop read from an attribute into the prop `parseAttributes` keeps. */
  lemma CondensedReadsAs(q: Prop, a: AttrScan, inVPre: bool)
    requires ReadsAs(q, a.name, ContentOf(a.value), inVPre)
    ensures ReadsAs(CondenseClassValue(q), a.name, ListedContent(a), inVPre)
  {
  }

  /**
   * `parseAttributes`: reads attributes until the end of the input, `>` or
   * `/>`, stepping over stray `/`; an end tag keeps none of them, and inside
   * `v-pre` all of them are plain attributes.
   */
  /** What `parseAttributes` has read so far, from offset `at` of `orig` up to the rest `source` at `offset`. */
  ghost predicate AttrsSoFar(tagType: TagType, props: seq<Prop>, done: seq<Listed>, src: string, at: nat,
                             d: (string, bool) -> string, inVPre: bool, orig: string, source: string, offset: nat)
  {
    && (src == [] || !IsHtmlSpace(src[0]))
    && (source == [] || !IsHtmlSpace(source[0]))
    && ScannedSoFar(src, at, d, done, source, offset)
    && (tagType.End? ==> props == [])
    && (tagType.Start? ==> PropsRead(props, done, inVPre))
    && PropsIn(props, orig, at, offset)
    && (inVPre ==> forall p <- props :: p.Attribute?)
    && ClassesCondensed(props)
  }

  method ParseAttributes(ctx: ParserContext, tagType: TagType, ghost src: string, ghost at: nat) returns (props: seq<Prop>)
    requires ctx.Valid() && (ctx.source == [] || !IsHtmlSpace(ctx.source[0]))
    requires src == ctx.source && at == ctx.offset
    modifies ctx`source, ctx`offset, ctx`line, ctx`column, ctx`errors
    ensures ctx.Valid() && old(ctx.offset) <= ctx.offset
    ensures ctx.source == [] || StartsWith(ctx.source, ">") || StartsWith(ctx.source, "/>")
    ensures tagType.End? ==> props == []
    ensures tagType.Start? ==> PropsRead(props, ScanAttributes(src, at, ctx.options.decodeEntities), ctx.inVPre)
    ensures PropsIn(props, ctx.originalSource, old(ctx.offset), ctx.offset)
    ensures ctx.inVPre ==> forall p <- props :: p.Attribute?
    ensures ClassesCondensed(props)
  {
    props := [];
    var names: set<string> := {};
    ghost var d := ctx.options.decodeEntities;
    ghost var done: seq<Listed> := [];
    AttrsStart(tagType, src, at, d, ctx.inVPre, ctx.originalSource);
    while ctx.source != [] && !StartsWith(ctx.source, ">") && !StartsWith(ctx.source, "/>")
      invariant ctx.Valid() && at <= ctx.offset
      invariant AttrsSoFar(tagType, props, done, src, at, d, ctx.inVPre, ctx.originalSource, ctx.source, ctx.offset)
      decreases |ctx.source|
    {
      props, names, done := ParseAttributesTurn(ctx, tagType, names, props, src, at, done);
    }
    AttrsAllRead(tagType, props, done, src, at, d, ctx.inVPre, ctx.originalSource, ctx.source, ctx.offset);
  }

  /** Before the loop of `parseAttributes` nothing is read and the whole list is still to scan. */
  lemma AttrsStart(tagType: TagType, src: string, at: nat, d: (string, bool) -> string, inVPre: bool, orig: string)
    requires src == [] || !IsHtmlSpace(src[0])
    ensures AttrsSoFar(tagType, [], [], src, at, d, inVPre, orig, src, at)
  {
    assert [] + ScanAttributes(src, at, d) == ScanAttributes(src, at, d);
  }

  /** When the loop of `parseAttributes` stops, the props of a start tag read the whole attribute list. */
  lemma AttrsAllRead(tagType: TagType, props: seq<Prop>, done: seq<Listed>, src: string, at: nat,
                     d: (string, bool) -> string, inVPre: bool, orig: string, source: string, offset: nat)
    requires AttrsSoFar(tagType, props, done, src, at, d, inVPre, orig, source, offset)
    requires source == [] || StartsWith(source, ">") || StartsWith(source, "/>")
    ensures tagType.End? ==> props == []
    ensures tagType.Start? ==> PropsRead(props, ScanAttributes(src, at, d), inVPre)
    ensures PropsIn(props, orig, at, offset)
    ensures inVPre ==> forall p <- props :: p.Attribute?
    ensures ClassesCondensed(props)
  {
    ScannedAll(src, at, d, done, source, offset);
    if tagType.Start? {
      PropsReadSame(props, done, ScanAttributes(src, at, d), inVPre);
    }
  }

  /** At the end of the attribute list everything has been scanned. */
  lemma {:induction false} ScannedAll(s0: string, o0: nat, decode: (string, bool) -> string, done: seq<Listed>, rest: string, at: nat)
    requires s0 == [] || !IsHtmlSpace(s0[0])
    requires rest == [] || StartsWith(rest, ">") || StartsWith(rest, "/>")
    requires ScannedSoFar(s0, o0, decode, done, rest, at)
    ensures done == ScanAttributes(s0, o0, decode)
  {
    ScanAttributesAtEnd(rest, at, decode);
    AppendNothing(ScanAttributes(s0, o0, decode), done, ScanAttributes(rest, at, decode));
  }

  lemma AppendNothing(whole: seq<Listed>, done: seq<Listed>, tail: seq<Listed>)
    requires whole == done + tail && tail == []
    ensures whole == done
  {
  }

  lemma ScanAttributesAtEnd(s: string, at: nat, decode: (string, bool) -> string)
    requires s == [] || StartsWith(s, ">") || StartsWith(s, "/>")
    requires s == [] || !IsHtmlSpace(s[0])
    ensures ScanAttributes(s, at, decode) == []
  {
  }

  lemma {:induction false} PropsReadSame(props: seq<Prop>, scans: seq<Listed>, scans': seq<Listed>, inVPre: bool)
    requires scans == scans' && PropsRead(props, scans, inVPre)
    ensures PropsRead(props, scans', inVPre)
  {
  }

  /**
   * A turn of `parseAttributes`: a stray `/` is skipped; otherwise an
   * attribute is read, appended to the props of a start tag, and to the
   * scanned attributes either way.
   */
  method ParseAttributesTurn(ctx: ParserContext, tagType: TagType, names: set<string>, props: seq<Prop>,
                             ghost s0: string, ghost o0: nat, ghost done: seq<Listed>)
    returns (props': seq<Prop>, names': set<string>, ghost done': seq<Listed>)
    requires ctx.Valid() && ctx.source != [] && !StartsWith(ctx.source, ">") && !StartsWith(ctx.source, "/>")
    requires o0 <= ctx.offset
    requires AttrsSoFar(tagType, props, done, s0, o0, ctx.options.decodeEntities, ctx.inVPre, ctx.originalSource, ctx.source, ctx.offset)
    modifies ctx`source, ctx`offset, ctx`line, ctx`column, ctx`errors
    ensures ctx.Valid() && old(ctx.offset) < ctx.offset && |ctx.source| < old(|ctx.source|)
    ensures AttrsSoFar(tagType, props', done', s0, o0, ctx.options.decodeEntities, ctx.inVPre, ctx.originalSource, ctx.source, ctx.offset)
  {
    if StartsWith(ctx.source, "/") {
      SolidusTurn(ctx, tagType, props, s0, o0, done);
      return props, names, done;
    }
    props', names', done' := AttributeTurn(ctx, tagType, names, props, s0, o0, done);
  }

  /** The turn of `parseAttributes` at a stray `/`: skipped, nothing is scanned. */
  method SolidusTurn(ctx: ParserContext, tagType: TagType, props: seq<Prop>,
                     ghost s0: string, ghost o0: nat, ghost done: seq<Listed>)
    requires ctx.Valid() && StartsWith(ctx.source, "/") && !StartsWith(ctx.source, "/>")
    requires o0 <= ctx.offset
    requires AttrsSoFar(tagType, props, done, s0, o0, ctx.options.decodeEntities, ctx.inVPre, ctx.originalSource, ctx.source, ctx.offset)
    modifies ctx`source, ctx`offset, ctx`line, ctx`column, ctx`errors
    ensures ctx.Valid() && old(ctx.offset) < ctx.offset && |ctx.source| < old(|ctx.source|)
    ensures AttrsSoFar(tagType, props, done, s0, o0, ctx.options.decodeEntities, ctx.inVPre, ctx.originalSource, ctx.source, ctx.offset)
  {
    ghost var d, s, at := ctx.options.decodeEntities, ctx.source, ctx.offset;
    SkipSolidus(ctx);
    ScannedSlash(s0, o0, d, done, s, at, ctx.source, ctx.offset);
  }

  /** The turn of `parseAttributes` at an attribute: read, appended to the scanned attributes, and to the props of a start tag. */
  method AttributeTurn(ctx: ParserContext, tagType: TagType, names: set<string>, props: seq<Prop>,
                       ghost s0: string, ghost o0: nat, ghost done: seq<Listed>)
    returns (props': seq<Prop>, names': set<string>, ghost done': seq<Listed>)
    requires ctx.Valid() && ctx.source != [] && !StartsWith(ctx.source, ">") && !StartsWith(ctx.source, "/>")
    requires !StartsWith(ctx.source, "/") && o0 <= ctx.offset
    requires AttrsSoFar(tagType, props, done, s0, o0, ctx.options.decodeEntities, ctx.inVPre, ctx.originalSource, ctx.source, ctx.offset)
    modifies ctx`source, ctx`offset, ctx`line, ctx`column, ctx`errors
    ensures ctx.Valid() && old(ctx.offset) < ctx.offset && |ctx.source| < old(|ctx.source|)
    ensures AttrsSoFar(tagType, props', done', s0, o0, ctx.options.decodeEntities, ctx.inVPre, ctx.originalSource, ctx.source, ctx.offset)
  {
    ghost var d, s, at := ctx.options.decodeEntities, ctx.source, ctx.offset;
    assert IsTagChar(s[0]) by {
      assert s[..1] == [s[0]];
    }
    ghost var l := Listed(at, ScanAttribute(s, d));
    var attr;
    attr, names' := ParseListedAttribute(ctx, tagType, names);
    ScannedAttr(s0, o0, d, done, s, at, ctx.source, ctx.offset);
    done' := done + [l];
    props' := props;
    if tagType.Start? {
      PropsReadSnoc(props, done, attr, l, ctx.inVPre);
      props' := props + [attr];
    }
  }

  /** A stray `/` in a tag: reported, then skipped with the whitespace after it. */
  method SkipSolidus(ctx: ParserContext)
    requires ctx.Valid() && StartsWith(ctx.source, "/")
    modifies ctx`source, ctx`offset, ctx`line, ctx`column, ctx`errors
    ensures ctx.Valid()
    ensures var k := SpanOf(old(ctx.source)[1..], IsHtmlSpace, 0);
      ctx.source == old(ctx.source)[1..][k..] && ctx.offset == old(ctx.offset) + 1 + k
    ensures ctx.source == [] || !IsHtmlSpace(ctx.source[0])
    ensures ctx.errors == old(ctx.errors) + [UnexpectedSolidusInTag]
  {
    ctx.EmitError(UnexpectedSolidusInTag);
    ctx.AdvanceBy(1);
    ctx.AdvanceSpaces();
  }

  /** A `class` attribute with a value gets its value condensed; any other prop is kept as it is. */
  function CondenseClassValue(p: Prop): (r: Prop)
    ensures r.loc == p.loc && r.Attribute? == p.Attribute?
    ensures forall orig :: PropOk(p, orig) ==> PropOk(r, orig)
    ensures ClassesCondensed([r])
    ensures p.Attribute? ==> r.name == p.name && r.value.Some? == p.value.Some?
    ensures p.Attribute? && p.value.Some? ==>
      Strip(r.value.value.content, IsJsSpace) == Strip(p.value.value.content, IsJsSpace)
    ensures p.Attribute? && p.name == "class" && p.value.Some? ==>
      r.value.value.content == Unwords(Words(p.value.value.content, IsJsSpace)) && r.value.value.loc == p.value.value.loc
    ensures !(p.Attribute? && p.name == "class" && p.value.Some?) ==> r == p
  {
    if p.Attribute? && p.value.Some? && p.name == "class" then
      CondenseClassSpec(p.value.value.content);
      p.(value := Some(p.value.value.(content := CondenseClass(p.value.value.content))))
    else p
  }

  /** The attribute itself, with a `class` value condensed; an end tag reports that it has one. */
  method ReadListedAttribute(ctx: ParserContext, tagType: TagType, names: set<string>)
    returns (attr: Prop, names': set<string>)
    requires ctx.Valid() && ctx.source != [] && IsTagChar(ctx.source[0])
    modifies ctx`source, ctx`offset, ctx`line, ctx`column, ctx`errors
    ensures ctx.Valid()
    ensures var a := ScanAttribute(old(ctx.source), ctx.options.decodeEntities);
      && ctx.offset == old(ctx.offset) + a.length
      && ListedRead(attr, Listed(old(ctx.offset), a), ctx.inVPre)
    ensures PropsIn([attr], ctx.originalSource, old(ctx.offset), ctx.offset)
    ensures ctx.inVPre ==> attr.Attribute?
    ensures ClassesCondensed([attr])
  {
    if tagType.End? {
      ctx.EmitError(EndTagWithAttributes);
    }
    var read;
    read, names' := ParseAttribute(ctx, names);
    CondensedReadsAs(read, ScanAttribute(old(ctx.source), ctx.options.decodeEntities), ctx.inVPre);
    attr := CondenseClassValue(read);
  }

  /**
   * One turn of `parseAttributes` that reads an attribute: the attribute,
   * with a `class` value condensed, then the whitespace after it.
   */
  method ParseListedAttribute(ctx: ParserContext, tagType: TagType, names: set<string>)
    returns (attr: Prop, names': set<string>)
    requires ctx.Valid() && ctx.source != [] && IsTagChar(ctx.source[0])
    modifies ctx`source, ctx`offset, ctx`line, ctx`column, ctx`errors
    ensures ctx.Valid() && old(ctx.offset) < ctx.offset
    ensures var a := ScanAttribute(old(ctx.source), ctx.options.decodeEntities);
            var k := SpanOf(old(ctx.source)[a.length..], IsHtmlSpace, 0);
      && ctx.source == old(ctx.source)[a.length..][k..] && ctx.offset == old(ctx.offset) + a.length + k
      && ListedRead(attr, Listed(old(ctx.offset), a), ctx.inVPre)
    ensures ctx.source == [] || !IsHtmlSpace(ctx.source[0])
    ensures PropsIn([attr], ctx.originalSource, old(ctx.offset), ctx.offset)
    ensures ctx.inVPre ==> attr.Attribute?
    ensures ClassesCondensed([attr])
  {
    ghost var s := ctx.source;
    ghost var a := ScanAttribute(s, ctx.options.decodeEntities);
    attr, names' := ReadListedAttribute(ctx, tagType, names);
    assert ctx.source == s[a.length..];
    SkipAttributeGap(ctx);
  }

  /** After an attribute: a missing separator is reported, then the whitespace is skipped. */
  method SkipAttributeGap(ctx: ParserContext)
    requires ctx.Valid()
    modifies ctx`source, ctx`offset, ctx`line, ctx`column, ctx`errors
    ensures ctx.Valid()
    ensures ctx.source == old(ctx.source)[SpanOf(old(ctx.source), IsHtmlSpace, 0)..]
    ensures ctx.source == [] || !IsHtmlSpace(ctx.source[0])
    ensures ctx.errors == old(ctx.errors) +
      (if old(ctx.source) != [] && IsTagChar(old(ctx.source)[0]) then [MissingWhitespaceBetweenAttributes] else [])
  {
    if ctx.source != [] && IsTagChar(ctx.source[0]) {
      ctx.EmitError(MissingWhitespaceBetweenAttributes);
    }
    ctx.AdvanceSpaces();
  }

  /** `isSpecialTemplateDirective`: the directives that make a `<template>` a template element. */
  predicate IsSpecialTemplateDirective(name: string) {
    name in {"if", "else", "else-if", "for", "slot"}
  }

  /** A tag that names a component whatever its props. */
  predicate NamesComponent(tag: string, o: Options) {
    || tag == "component"
    || (tag != [] && IsAsciiUpper(tag[0]))
    || o.isCoreComponent(tag)
    || (o.isBuiltInComponent.Some? && o.isBuiltInComponent.value(tag))
    || (o.isNativeTag.Some? && !o.isNativeTag.value(tag))
  }

  /** `is="vue:..."` or `v-is`: a prop that casts a native tag to a component. */
  predicate IsMarker(p: Prop) {
    if p.Attribute? then p.name == "is" && p.value.Some? && StartsWith(p.value.value.content, "vue:")
    else p.name == "is"
  }

  /** A tag is a component unless it is a custom element: by its name, or by an `is` marker among its props. */
  predicate ComponentTag(tag: string, props: seq<Prop>, o: Options)
    ensures ComponentTag(tag, props, o) ==> !o.isCustomElement(tag)
    ensures !o.isCustomElement(tag) && NamesComponent(tag, o) ==> ComponentTag(tag, props, o)
  {
    !o.isCustomElement(tag) && (NamesComponent(tag, o) || exists p <- props :: IsMarker(p))
  }

  /** `isComponent`: the name tests first, then a scan of the props for an `is` marker. */
  method IsComponent(tag: string, props: seq<Prop>, o: Options) returns (r: bool)
    ensures r == ComponentTag(tag, props, o)
  {
    if o.isCustomElement(tag) {
      return false;
    }
    if NamesComponent(tag, o) {
      return true;
    }
    for i := 0 to |props|
      invariant forall j :: 0 <= j < i ==> !IsMarker(props[j])
    {
      var p := props[i];
      if p.Attribute? {
        if p.name == "is" && p.value.Some? && StartsWith(p.value.value.content, "vue:") {
          assert IsMarker(p) && p in props;
          return true;
        }
      } else if p.name == "is" {
        assert IsMarker(p) && p in props;
        return true;
      }
    }
    return false;
  }

  /** A directive among the props that makes a `<template>` a template element. */
  predicate HasSpecialTemplateDirective(props: seq<Prop>) {
    exists p <- props :: p.Directive? && IsSpecialTemplateDirective(p.name)
  }

  /**
   * The element type `parseTag` assigns, with `isComponent` asked last:
   * always plain inside `v-pre`; otherwise `slot`, then a `template` with a
   * special directive, then a component.
   */
  function TagTypeOf(tag: string, props: seq<Prop>, inVPre: bool, o: Options): (t: ElementType)
    ensures inVPre ==> t == PlainElement
    ensures t == Component ==> !o.isCustomElement(tag)
    ensures t == Slot ==> tag == "slot"
    ensures t == Template ==> tag == "template"
  {
    if inVPre then PlainElement
    else if tag == "slot" then Slot
    else if tag == "template" then (if HasSpecialTemplateDirective(props) then Template else PlainElement)
    else if ComponentTag(tag, props, o) then Component
    else PlainElement
  }

  /**
   * What the classification means outside `v-pre`: a capitalised name
   * makes a component whatever the props, an `is` marker makes one of any
   * other tag, a custom element is never one, and the props matter only
   * through `is` markers and the special template directives.
   */
  lemma ElementTypeCases(tag: string, props: seq<Prop>, o: Options)
    ensures tag != [] && IsAsciiUpper(tag[0]) && !o.isCustomElement(tag) ==>
      TagTypeOf(tag, props, false, o) == Component
    ensures tag != "slot" && tag != "template" && !o.isCustomElement(tag) && (exists p <- props :: IsMarker(p)) ==>
      TagTypeOf(tag, props, false, o) == Component
    ensures o.isCustomElement(tag) ==> TagTypeOf(tag, props, false, o) in {PlainElement, Slot, Template}
    ensures forall other: seq<Prop> ::
      (exists p <- other :: IsMarker(p)) == (exists p <- props :: IsMarker(p)) &&
      HasSpecialTemplateDirective(other) == HasSpecialTemplateDirective(props) ==>
        TagTypeOf(tag, other, false, o) == TagTypeOf(tag, props, false, o)
  {
    if tag != [] && IsAsciiUpper(tag[0]) {
      assert tag != "slot" && tag != "template" by {
        assert "slot"[0] == 's' && "template"[0] == 't';
      }
    }
  }

  /** `/^<\/?[a-z]/i`: a start or end tag opens here. */
  predicate TagOpenAt(s: string) {
    |s| >= 2 && s[0] == '<' && (if s[1] == '/' then |s| >= 3 && IsAsciiLetter(s[2]) else IsAsciiLetter(s[1]))
  }

  /** Where the tag name starts: after `<` or `</`. */
  function TagNameStart(s: string): nat
    requires TagOpenAt(s)
  {
    if s[1] == '/' then 2 else 1
  }

  /** The length of the match of `/^<\/?([a-z][^\t\r\n\f />]*)/i`. */
  function TagMatchLength(s: string): (k: nat)
    requires TagOpenAt(s)
    ensures TagNameStart(s) < k <= |s|
    ensures k < |s| ==> !IsTagChar(s[k])
  {
    var p := TagNameStart(s);
    p + 1 + SpanOf(s, IsTagChar, p + 1)
  }

  /** The tag name the match captures: a letter, then characters that do not end a tag. */
  function TagName(s: string): (tag: string)
    requires TagOpenAt(s)
    ensures tag != [] && IsAsciiLetter(tag[0])
    ensures forall i :: 0 <= i < |tag| ==> IsTagChar(tag[i])
    ensures s[..TagMatchLength(s)] == s[..TagNameStart(s)] + tag
  {
    var p := TagNameStart(s);
    SpanOfAll(s, IsTagChar, p + 1);
    s[p..TagMatchLength(s)]
  }

  /** `props.filter(p => p.name !== name)`. */
  function WithoutName(props: seq<Prop>, name: string): (r: seq<Prop>)
    ensures |r| <= |props|
  {
    if props == [] then []
    else (if props[0].name == name then [] else [props[0]]) + WithoutName(props[1..], name)
  }

  /** The filter keeps exactly the props with another name. */
  lemma {:induction false} WithoutNameMembers(props: seq<Prop>, name: string)
    ensures forall p <- WithoutName(props, name) :: p in props && p.name != name
    ensures forall p <- props :: p.name != name ==> p in WithoutName(props, name)
  {
    if props != [] {
      WithoutNameMembers(props[1..], name);
      assert props == [props[0]] + props[1..];
    }
  }

  /** The filter works prop by prop: on a concatenation it filters each part and keeps them in order. */
  lemma {:induction false} WithoutNameAppend(a: seq<Prop>, b: seq<Prop>, name: string)
    ensures WithoutName(a + b, name) == WithoutName(a, name) + WithoutName(b, name)
  {
    if a != [] {
      var h := if a[0].name == name then [] else [a[0]];
      AppendHeadTail(a, b);
      WithoutNameHead(a + b, name);
      WithoutNameHead(a, name);
      WithoutNameAppend(a[1..], b, name);
      AppendAssoc(h, WithoutName(a[1..], name), WithoutName(b, name));
    } else {
      assert a + b == b;
    }
  }

  /** The filter looks at the first prop, then at the rest. */
  lemma WithoutNameHead(props: seq<Prop>, name: string)
    requires props != []
    ensures WithoutName(props, name) == (if props[0].name == name then [] else [props[0]]) + WithoutName(props[1..], name)
  {
  }

  /** A list without the name is left as it is, so filtering twice is filtering once. */
  lemma {:induction false} WithoutNameKeeps(props: seq<Prop>, name: string)
    requires forall p <- props :: p.name != name
    ensures WithoutName(props, name) == props
  {
    if props != [] {
      WithoutNameKeeps(props[1..], name);
    }
  }

  /** A `v-pre` directive among the props; props read inside `v-pre`, all plain attributes, never hold one. */
  predicate HasVPre(props: seq<Prop>)
    ensures HasVPre(props) ==> exists p <- props :: !p.Attribute?
  {
    exists p <- props :: p.Directive? && p.name == "pre"
  }

  /** A scanned attribute that `parseAttribute` reads, outside `v-pre`, as the `v-pre` directive. */
  predicate ListedVPre(l: Listed) {
    IsDirectiveSyntax(l.scan.name) && DecomposeDirective(l.scan.name).dirName == "pre"
  }

  /** Some scanned attribute reads as `v-pre`. */
  predicate SpellsVPre(scans: seq<Listed>) {
    exists l <- scans :: ListedVPre(l)
  }

  /** The scanned attributes not named `name`, in order. */
  function ListedWithout(scans: seq<Listed>, name: string): (r: seq<Listed>)
    ensures |r| <= |scans|
    ensures forall l <- r :: l in scans && l.scan.name != name
  {
    if scans == [] then []
    else (if scans[0].scan.name == name then [] else [scans[0]]) + ListedWithout(scans[1..], name)
  }

  /** Read outside `v-pre`, the props hold a `v-pre` directive exactly when a scanned attribute spells one. */
  lemma VPreScanned(props: seq<Prop>, scans: seq<Listed>)
    requires PropsRead(props, scans, false)
    ensures HasVPre(props) <==> SpellsVPre(scans)
  {
    if HasVPre(props) {
      var p :| p in props && p.Directive? && p.name == "pre";
      var i :| 0 <= i < |props| && props[i] == p;
      assert ListedRead(props[i], scans[i], false);
      assert ListedVPre(scans[i]);
    }
    if SpellsVPre(scans) {
      var l :| l in scans && ListedVPre(l);
      var i :| 0 <= i < |scans| && scans[i] == l;
      assert ListedRead(props[i], scans[i], false);
      assert props[i] in props;
    }
  }

  /** Props read from two runs of scans, one after the other. */
  lemma PropsReadAppend(p1: seq<Prop>, s1: seq<Listed>, p2: seq<Prop>, s2: seq<Listed>, inVPre: bool)
    requires PropsRead(p1, s1, inVPre) && PropsRead(p2, s2, inVPre)
    ensures PropsRead(p1 + p2, s1 + s2, inVPre)
  {
    forall i | 0 <= i < |p1 + p2| ensures ListedRead((p1 + p2)[i], (s1 + s2)[i], inVPre) {
      if i >= |p1| {
        assert (p1 + p2)[i] == p2[i - |p1|] && (s1 + s2)[i] == s2[i - |s1|];
      }
    }
  }

  /**
   * Inside `v-pre` every prop bears the name of its attribute, so dropping
   * a name from the props drops the same attributes from the scans.
   */
  lemma {:induction false} WithoutNameRead(props: seq<Prop>, scans: seq<Listed>, name: string)
    requires PropsRead(props, scans, true)
    ensures PropsRead(WithoutName(props, name), ListedWithout(scans, name), true)
  {
    if props != [] {
      assert PropsRead(props[1..], scans[1..], true) by {
        forall i | 0 <= i < |props| - 1 ensures ListedRead(props[1..][i], scans[1..][i], true) {
          assert ListedRead(props[i + 1], scans[i + 1], true);
        }
      }
      WithoutNameRead(props[1..], scans[1..], name);
      assert ListedRead(props[0], scans[0], true);
      var h := if props[0].name == name then [] else [props[0]];
      var g := if scans[0].scan.name == name then [] else [scans[0]];
      assert PropsRead(h, g, true);
      PropsReadAppend(h, g, WithoutName(props[1..], name), ListedWithout(scans[1..], name), true);
    }
  }

  /**
   * The attribute part of `parseTag`: a `<pre>`-like tag switches `inPre` on
   * (an end tag as well), and a start tag carrying `v-pre` outside `v-pre`
   * switches `inVPre` on and has its attributes read again, as plain
   * attributes, without the `v-pre` itself.
   */
  method ParseTagProps(ctx: ParserContext, tagType: TagType, tag: string, ghost src: string, ghost at: nat)
    returns (props: seq<Prop>)
    requires ctx.Valid() && (ctx.source == [] || !IsHtmlSpace(ctx.source[0]))
    requires src == ctx.source && at == ctx.offset
    modifies ctx`source, ctx`offset, ctx`line, ctx`column, ctx`errors, ctx`inPre, ctx`inVPre
    ensures ctx.Valid() && old(ctx.offset) <= ctx.offset
    ensures ctx.source == [] || StartsWith(ctx.source, ">") || StartsWith(ctx.source, "/>")
    ensures ctx.inPre == (old(ctx.inPre) || ctx.options.isPreTag(tag))
    ensures old(ctx.inVPre) ==> ctx.inVPre
    ensures ctx.inVPre && !old(ctx.inVPre) ==> tagType.Start? && forall p <- props :: p.name != "v-pre"
    ensures tagType.End? ==> props == [] && ctx.inVPre == old(ctx.inVPre)
    ensures tagType.Start? ==>
      TagPropsRead(props, ScanAttributes(src, at, ctx.options.decodeEntities), old(ctx.inVPre), ctx.inVPre)
    ensures PropsIn(props, ctx.originalSource, old(ctx.offset), ctx.offset)
    ensures ctx.inVPre ==> forall p <- props :: p.Attribute?
    ensures ClassesCondensed(props)
  {
    var cursor := ctx.Cursor();
    var currentSource := ctx.source;
    if ctx.options.isPreTag(tag) {
      ctx.inPre := true;
    }
    props := ParseAttributes(ctx, tagType, src, at);
    ghost var scans := ScanAttributes(src, at, ctx.options.decodeEntities);
    if tagType.Start? && !ctx.inVPre {
      VPreScanned(props, scans);
    }
    if tagType.Start? && !ctx.inVPre && HasVPre(props) {
      props := ReadAgainInVPre(ctx, cursor, currentSource, src, at);
    }
  }

  /**
   * The second pass of `parseTag` over a tag carrying `v-pre`: `inVPre` is
   * switched on, the cursor goes back to the start of the attributes, and
   * they are read again as plain attributes, without `v-pre` itself.
   */
  method ReadAgainInVPre(ctx: ParserContext, cursor: Position, currentSource: string, ghost src: string, ghost at: nat)
    returns (props: seq<Prop>)
    requires ctx.Valid() && 0 <= cursor.offset <= |ctx.originalSource| && cursor.offset <= ctx.offset
    requires currentSource == ctx.originalSource[cursor.offset..]
    requires currentSource == [] || !IsHtmlSpace(currentSource[0])
    requires src == currentSource && at == cursor.offset
    modifies ctx`source, ctx`offset, ctx`line, ctx`column, ctx`errors, ctx`inVPre
    ensures ctx.Valid() && cursor.offset <= ctx.offset && ctx.inVPre
    ensures ctx.source == [] || StartsWith(ctx.source, ">") || StartsWith(ctx.source, "/>")
    ensures forall p <- props :: p.name != "v-pre"
    ensures PropsRead(props, ListedWithout(ScanAttributes(src, at, ctx.options.decodeEntities), "v-pre"), true)
    ensures PropsIn(props, ctx.originalSource, cursor.offset, ctx.offset)
    ensures forall p <- props :: p.Attribute?
    ensures ClassesCondensed(props)
  {
    ctx.inVPre := true;
    ctx.line, ctx.column, ctx.offset := cursor.line, cursor.column, cursor.offset;
    ctx.source := currentSource;
    var again := ParseAttributes(ctx, Start, src, at);
    WithoutNameRead(again, ScanAttributes(src, at, ctx.options.decodeEntities), "v-pre");
    props := WithoutName(again, "v-pre");
    WithoutNameMembers(again, "v-pre");
  }

  /**
   * The close of `parseTag`: at the end of the input an `EofInTag`;
   * otherwise `/>` or `>` is consumed, and an end tag closed by `/>` reports
   * `EndTagWithTrailingSolidus`.
   */
  method ParseTagClose(ctx: ParserContext, tagType: TagType) returns (isSelfClosing: bool)
    requires ctx.Valid() && (ctx.source == [] || StartsWith(ctx.source, ">") || StartsWith(ctx.source, "/>"))
    modifies ctx`source, ctx`offset, ctx`line, ctx`column, ctx`errors
    ensures ctx.Valid()
    ensures old(ctx.source) == [] ==>
      !isSelfClosing && ctx.offset == old(ctx.offset) && ctx.errors == old(ctx.errors) + [EofInTag]
    ensures old(ctx.source) != [] ==>
      && isSelfClosing == StartsWith(old(ctx.source), "/>")
      && ctx.offset == old(ctx.offset) + (if isSelfClosing then 2 else 1)
      && ctx.originalSource[ctx.offset - 1] == '>'
      && (isSelfClosing ==> ctx.originalSource[ctx.offset - 2..ctx.offset] == "/>")
      && ctx.errors == old(ctx.errors) + (if tagType.End? && isSelfClosing then [EndTagWithTrailingSolidus] else [])
  {
    isSelfClosing := false;
    if |ctx.source| == 0 {
      ctx.EmitError(EofInTag);
    } else {
      isSelfClosing := StartsWith(ctx.source, "/>");
      if tagType.End? && isSelfClosing {
        ctx.EmitError(EndTagWithTrailingSolidus);
      }
      ghost var o := ctx.offset;
      ghost var s := ctx.source;
      var n := if isSelfClosing then 2 else 1;
      assert s[n - 1] == '>' by {
        if isSelfClosing { assert s[..2] == "/>"; } else { assert s[..1] == ">"; }
      }
      ctx.AdvanceBy(n);
      assert ctx.originalSource[o..o + n] == s[..n];
    }
  }

  /**
   * `parseTag`: reads a start or end tag. An end tag yields nothing; a start
   * tag yields an element with its namespace, name, props and type, no
   * children, and a location spanning the whole tag.
   */
  method ParseTag(ctx: ParserContext, tagType: TagType, parent: Option<ElementNode>)
    returns (element: Option<ElementNode>, ghost attrs: string, ghost attrsAt: nat)
    requires ctx.Valid() && TagOpenAt(ctx.source) && (tagType.End? <==> StartsWith(ctx.source, "</"))
    modifies ctx`source, ctx`offset, ctx`line, ctx`column, ctx`errors, ctx`inPre, ctx`inVPre
    ensures ctx.Valid() && old(ctx.offset) + TagMatchLength(old(ctx.source)) <= ctx.offset
    ensures AttrListOf(old(ctx.source), old(ctx.offset), attrs, attrsAt)
    ensures element.Some? <==> tagType.Start?
    ensures ctx.inPre == (old(ctx.inPre) || ctx.options.isPreTag(TagName(old(ctx.source))))
    ensures old(ctx.inVPre) ==> ctx.inVPre
    ensures tagType.End? ==> ctx.inVPre == old(ctx.inVPre)
    ensures ctx.source == [] || ctx.originalSource[ctx.offset - 1] == '>'
    ensures element.Some? ==>
      var e, tag := element.value, TagName(old(ctx.source));
      && e.tag == tag && e.ns == ctx.options.getNamespace(tag, parent) && e.children == []
      && e.tagType == TagTypeOf(tag, e.props, ctx.inVPre, ctx.options)
      && PropsIn(e.props, ctx.originalSource, old(ctx.offset), ctx.offset) && ClassesCondensed(e.props)
      && (ctx.inVPre ==> forall p <- e.props :: p.Attribute?)
      && (ctx.inVPre && !old(ctx.inVPre) ==> forall p <- e.props :: p.name != "v-pre")
      && TagPropsRead(e.props, ScanAttributes(attrs, attrsAt, ctx.options.decodeEntities), old(ctx.inVPre), ctx.inVPre)
      && (e.isSelfClosing ==> ctx.originalSource[ctx.offset - 2..ctx.offset] == "/>")
      && e.loc.start == old(ctx.Cursor()) && e.loc.end.offset == ctx.offset
      && LocOk(e.loc, ctx.originalSource)
  {
    var start := ctx.Cursor();
    var tag, props, isSelfClosing;
    tag, props, isSelfClosing, attrs, attrsAt := ReadTag(ctx, tagType);
    if tagType.End? {
      return None, attrs, attrsAt;
    }
    var ns := ctx.options.getNamespace(tag, parent);
    var elementType := TagTypeOf(tag, props, ctx.inVPre, ctx.options);
    var loc := ctx.GetSelection(start, None);
    element := Some(Element(ns, tag, elementType, props, isSelfClosing, [], loc));
  }

  /** What `parseTag` reads: the name, the props and whether the tag closes itself. */
  method ReadTag(ctx: ParserContext, tagType: TagType)
    returns (tag: string, props: seq<Prop>, isSelfClosing: bool, ghost attrs: string, ghost attrsAt: nat)
    requires ctx.Valid() && TagOpenAt(ctx.source)
    modifies ctx`source, ctx`offset, ctx`line, ctx`column, ctx`errors, ctx`inPre, ctx`inVPre
    ensures ctx.Valid() && old(ctx.offset) + TagMatchLength(old(ctx.source)) <= ctx.offset
    ensures tag == TagName(old(ctx.source))
    ensures AttrListOf(old(ctx.source), old(ctx.offset), attrs, attrsAt)
    ensures ctx.inPre == (old(ctx.inPre) || ctx.options.isPreTag(tag))
    ensures old(ctx.inVPre) ==> ctx.inVPre
    ensures tagType.End? ==> ctx.inVPre == old(ctx.inVPre)
    ensures ctx.source == [] || ctx.originalSource[ctx.offset - 1] == '>'
    ensures ctx.inVPre && !old(ctx.inVPre) ==> forall p <- props :: p.name != "v-pre"
    ensures tagType.Start? ==>
      TagPropsRead(props, ScanAttributes(attrs, attrsAt, ctx.options.decodeEntities), old(ctx.inVPre), ctx.inVPre)
    ensures PropsIn(props, ctx.originalSource, old(ctx.offset), ctx.offset) && ClassesCondensed(props)
    ensures ctx.inVPre ==> forall p <- props :: p.Attribute?
    ensures isSelfClosing ==> ctx.originalSource[ctx.offset - 2..ctx.offset] == "/>"
  {
    tag, props, attrs, attrsAt := ParseTagHead(ctx, tagType);
    isSelfClosing := ParseTagClose(ctx, tagType);
  }
  /** Where the attribute list of a tag starts: after the tag name and the whitespace that follows it. */
  function AttrListAt(s: string): (k: nat)
    requires TagOpenAt(s)
    ensures TagMatchLength(s) <= k <= |s|
    ensures k < |s| ==> !IsHtmlSpace(s[k])
  {
    var m := TagMatchLength(s);
    m + SpanOf(s[m..], IsHtmlSpace, 0)
  }

  /**
   * `attrs`, at offset `attrsAt` of the template, is the attribute list of
   * the tag that opens `s` at offset `at`: what follows the tag name and the
   * whitespace after it.
   */
  predicate AttrListOf(s: string, at: nat, attrs: string, attrsAt: nat) {
    && TagOpenAt(s) && attrs == s[AttrListAt(s)..] && attrsAt == at + AttrListAt(s)
    && (attrs == [] || !IsHtmlSpace(attrs[0]))
  }

  /**
   * The props of a start tag against its scanned attributes: `v-pre` is
   * switched on exactly when it was off and an attribute spells it, and then
   * the attributes are read again as plain ones without `v-pre` itself.
   */
  predicate TagPropsRead(props: seq<Prop>, scans: seq<Listed>, wasVPre: bool, inVPre: bool) {
    && (inVPre <==> wasVPre || SpellsVPre(scans))
    && PropsRead(props, if inVPre == wasVPre then scans else ListedWithout(scans, "v-pre"), inVPre)
  }

  /** `parseTag` up to its close: the tag name, then the attributes. */
  method ParseTagHead(ctx: ParserContext, tagType: TagType)
    returns (tag: string, props: seq<Prop>, ghost attrs: string, ghost attrsAt: nat)
    requires ctx.Valid() && TagOpenAt(ctx.source)
    modifies ctx`source, ctx`offset, ctx`line, ctx`column, ctx`errors, ctx`inPre, ctx`inVPre
    ensures ctx.Valid() && old(ctx.offset) + TagMatchLength(old(ctx.source)) <= ctx.offset
    ensures ctx.source == [] || StartsWith(ctx.source, ">") || StartsWith(ctx.source, "/>")
    ensures tag == TagName(old(ctx.source))
    ensures AttrListOf(old(ctx.source), old(ctx.offset), attrs, attrsAt)
    ensures ctx.inPre == (old(ctx.inPre) || ctx.options.isPreTag(tag))
    ensures old(ctx.inVPre) ==> ctx.inVPre
    ensures ctx.inVPre && !old(ctx.inVPre) ==> tagType.Start? && forall p <- props :: p.name != "v-pre"
    ensures tagType.End? ==> ctx.inVPre == old(ctx.inVPre)
    ensures tagType.Start? ==>
      TagPropsRead(props, ScanAttributes(attrs, attrsAt, ctx.options.decodeEntities), old(ctx.inVPre), ctx.inVPre)
    ensures PropsIn(props, ctx.originalSource, old(ctx.offset), ctx.offset)
    ensures ctx.inVPre ==> forall p <- props :: p.Attribute?
    ensures ClassesCondensed(props)
  {
    tag := ParseTagOpen(ctx);
    attrs, attrsAt := ctx.source, ctx.offset;
    props := ParseTagProps(ctx, tagType, tag, attrs, attrsAt);
  }

  /** The open of `parseTag`: `<` or `</` and the tag name, then any whitespace. */
  method ParseTagOpen(ctx: ParserContext) returns (tag: string)
    requires ctx.Valid() && TagOpenAt(ctx.source)
    modifies ctx`source, ctx`offset, ctx`line, ctx`column
    ensures ctx.Valid() && ctx.offset == old(ctx.offset) + AttrListAt(old(ctx.source))
    ensures ctx.source == old(ctx.source)[AttrListAt(old(ctx.source))..]
    ensures tag == TagName(old(ctx.source))
    ensures ctx.source == [] || !IsHtmlSpace(ctx.source[0])
  {
    tag := TagName(ctx.source);
    ghost var s := ctx.source;
    ctx.AdvanceBy(TagMatchLength(ctx.source));
    assert ctx.source == s[TagMatchLength(s)..];
    ctx.AdvanceSpaces();
  }
}
