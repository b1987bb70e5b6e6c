# Vue template parser and reactive dep markers, in Dafny

This project models two pieces of the Vue 3 runtime and compiler and proves properties of them.

1. **The template parser of `compiler-core`** (`parse.ts`). `baseParse` turns a template string into an
   AST. A parser context holds the unread rest of the template, a cursor (line, column, offset) and the
   `inPre` / `inVPre` flags. `parseChildren` reads sibling nodes until the end condition of its text
   mode (DATA, RCDATA, RAWTEXT, CDATA). It dispatches on the next characters:
   - interpolations;
   - comments, bogus comments and CDATA sections;
   - elements (`parseElement` → `parseTag` → `parseAttributes` → `parseAttribute` → `parseAttributeValue`);
   - text.

   It merges adjacent text with `pushNode`, then runs the whitespace pass. The model keeps the
   source's form:
   - the context is a class whose methods advance it;
   - the AST nodes are datatypes;
   - the loops (`parseChildren`, `parseAttributes`, `isEnd`, `isComponent`, the comment scanner, the
     whitespace pass) are methods with loop invariants, proved against functions that specify them.
2. **The dep markers of `reactivity`** (`dep.ts`). A dep is a set of effects with two bit masks, `w`
   (was tracked) and `n` (newly tracked), one bit per level of effect nesting:
   - `initDepMarkers` sets the level bit in `w` of every dep of an effect;
   - `finalizeDepMarkers` removes the effect from every dep that was tracked before but not now,
     compacts the effect's dep list in place and clears the level bit.

Modules, one per file:
- `Wrappers`, `Chars`, `Positions`, `Entities`: option type, string helpers, positions and locations,
  the default entity decoder.
- `Ast`: nodes, options, error codes and well-formedness.
- `Context`: the parser context class.
- `Directives`: the decomposition of a directive name.
- `Leaves`: text, comments and interpolations.
- `Tags`: attributes and tags.
- `NodeList`: `pushNode` and the whitespace pass.
- `Parser`: the recursive core.
- `Deps`: `dep.ts`.

What the parser is proved to guarantee:
- Every node it builds is well formed. Each child list is in source order and never holds two text
  nodes `pushNode` would have merged.
- Each location is a true slice of the template. This holds for directives because the parser uses
  the corrected argument start and quoted-expression location of the two Findings rows below. The
  expression location of an interpolation is kept as the source computes it, and well-formedness does
  not constrain it.
- Every node lies within the characters consumed for it.
- An element's props are read from its attribute text: one prop per attribute, in order, each what
  `parseAttribute` makes of that attribute. `v-pre` switches on exactly when an attribute spells it.
- `parseChildren` stops exactly at the end condition of its mode. At the top level that is the end
  of the input, so the root spans the whole template.
- Outside RAWTEXT and RCDATA the whitespace pass has run on every child list:
  - no comment survives unless comments are kept;
  - outside `<pre>`, no list starts with a blank text;
  - every text is one space or not blank, with no two whitespace characters together when condensing.

Integers of the source are unbounded in JavaScript except the bit masks. The masks are `bv32`: the
source's `|`, `&` and `~` act on 32-bit two's-complement values. JavaScript's `(x & bit) > 0` is
modelled as a signed test.

## Model

| member | source | states |
|---|---|---|
| Context.ParserContext.constructor | packages/compiler-core/src/parse.ts:116-141 | The context starts at line 1, column 1, offset 0, with the whole template unread, both flags off and no diagnostics. |
| Context.ParserContext.Cursor | packages/compiler-core/src/parse.ts:1108-1111 | The cursor's offset is the number of characters consumed so far; line and column are the context's. |
| Context.ParserContext.GetSelection | packages/compiler-core/src/parse.ts:1116-1127 | The location runs from `start` to `end` or to the cursor. Its source is that slice of the original template whenever the offsets are in range. |
| Context.ParserContext.GetNewPosition | packages/compiler-core/src/parse.ts:1158-1168 | The new offset is `start.offset + k`. Over a stretch without a line feed, the line is kept and the column moves by `k`. |
| Context.ParserContext.AdvanceBy | packages/compiler-core/src/parse.ts:1138-1145 | Drops exactly the first `n` unread characters. Moves the offset by `n` and the line and column as the dropped text dictates. The unread rest stays the original after the offset. |
| Context.ParserContext.AdvanceSpaces | packages/compiler-core/src/parse.ts:1150-1156 | Skips exactly the leading run of `[\t\r\n\f ]` and moves the offset by its length. Everything skipped is whitespace and the next character is not. |
| Context.ParserContext.EmitError | packages/compiler-core/src/parse.ts:1170-1187 | The diagnostic is appended after those already reported. |
| Context.Last | packages/compiler-core/src/parse.ts:1129-1131 | Definition used by `Parser.IsEnd` and `Parser.AtEnd`: None exactly for an empty list, otherwise its last element. |
| Positions.Selection | packages/compiler-core/src/parse.ts:1116-1127 | The location's source is the slice of the original between the two offsets when they are in range. |
| Positions.AdvancePosition | packages/compiler-core/src/parse.ts:1138-1145 | The offset grows by the number of characters passed. Over a stretch without a line feed the line is kept and the column moves by that number. |
| Positions.AdvanceCompose | packages/compiler-core/src/parse.ts:1138-1145 | Advancing over `a` characters and then `b` more gives the same position as advancing over `a + b` at once. |
| Positions.LocJoin | packages/compiler-core/src/parse.ts:324-342 | Two adjacent valid locations joined as `pushNode` joins them form a valid location. |
| Entities.DecodeEntities | packages/compiler-core/src/parse.ts:60-77 | Text without `&` comes back unchanged, and decoding never lengthens text. |
| Entities.DefaultDecodeEntities | packages/compiler-core/src/parse.ts:60-77 | The default decoder never lengthens text, and text without `&` comes back unchanged. |
| Entities.DecodeEscape | packages/compiler-core/src/parse.ts:60-77 | Round trip: decoding a string with its five reserved characters written as references gives the string back. |
| Chars.IndexOf | packages/compiler-core/src/parse.ts:1006 | `indexOf`: the first occurrence at or after the start index, and -1 exactly when there is none. |
| Chars.LastIndexOf | packages/compiler-core/src/parse.ts:839 | `lastIndexOf`: an occurrence with none after it, or -1 when there is none. |
| Chars.JsSlice | packages/compiler-core/src/parse.ts:1017 | `slice` with indices in range is exactly that slice, and no slice is longer than the string. |
| Chars.JsTrimSpec | packages/compiler-core/src/parse.ts:1019 | `trim` yields nothing exactly for all-whitespace text. Otherwise it yields the text between the leading and trailing whitespace, which starts and ends with a non-whitespace character. |
| Chars.CollapseRuns | packages/compiler-core/src/parse.ts:296 | `replace(/[\t\r\n\f ]+/g, ' ')` never lengthens the text, and every class character left in it is a space. |
| Chars.CollapseKeepsWords | packages/compiler-core/src/parse.ts:296 | Collapsing whitespace runs keeps the words of the text, in order. |
| Chars.CollapseKeepsOthers | packages/compiler-core/src/parse.ts:296 | Collapsing whitespace runs keeps every other character, in order. |
| Chars.CollapseNoAdjacent | packages/compiler-core/src/parse.ts:296 | After collapsing, no two whitespace characters stand side by side. |
| Chars.ReplaceCrlfDropsOnlyCr | packages/compiler-core/src/parse.ts:302 | `replace(/\r\n/g, '\n')` only ever drops carriage returns. |
| Chars.StripLeadingNewline | packages/compiler-core/src/parse.ts:316 | `replace(/^\r?\n/, '')` drops a leading CRLF or LF and nothing else. |
| Chars.SplitJoin | packages/compiler-core/src/parse.ts:890 | Round trip: `split('.')` undoes joining dot-free segments with dots. |
| Leaves.ParseTextData | packages/compiler-core/src/parse.ts:1078-1101 | Consumes exactly `length` characters. The content is the raw slice in RAWTEXT and CDATA modes or when it has no `&`; otherwise it is decoded. |
| Leaves.DecodeText | packages/compiler-core/src/parse.ts:1088-1100 | Text without `&` comes back as it is, and the default decoder never lengthens it. |
| Leaves.DecodeTextEscape | packages/compiler-core/src/parse.ts:1088-1100 | In every mode that decodes, escaped text reads back exactly with the default decoder. |
| Leaves.DecodeTextRaw | packages/compiler-core/src/parse.ts:1088-1093 | RAWTEXT and CDATA text is never decoded. |
| Leaves.EndTokens | packages/compiler-core/src/parse.ts:1050-1051 | Definition of the terminators used by `Leaves.ParseText` and `Leaves.EarliestEndSpec`, which prove where text stops: `]]>` in CDATA, otherwise `<` or the opening delimiter. |
| Leaves.EarliestEnd | packages/compiler-core/src/parse.ts:1054-1060 | The end index lies between 1 and the length of the input. |
| Leaves.EarliestEndSpec | packages/compiler-core/src/parse.ts:1054-1060 | The end index is at least 1 and at most the length. No terminator occurs before it from index 1 on. When it is short of the end, a terminator occurs there. |
| Leaves.ParseText | packages/compiler-core/src/parse.ts:1046-1072 | Consumes at least one character, stopping at the earliest terminator. The node's content is the decoded slice and its location spans exactly what was consumed. |
| Leaves.FindClose | packages/compiler-core/src/parse.ts:371 | The index is the leftmost `-->` or `--!>`, or -1 when there is none. |
| Leaves.CommentLength | packages/compiler-core/src/parse.ts:371-397 | Unclosed, the comment runs to the end of the input; closed, it ends just after its closer. |
| Leaves.CommentErrors | packages/compiler-core/src/parse.ts:371-397 | `EofInComment` exactly when the comment is unclosed. `IncorrectlyClosedComment` exactly when the closer is `--!>`. `AbruptClosingOfEmptyComment` exactly when the closer is at index 3 or less. |
| Leaves.ClosedCommentParts | packages/compiler-core/src/parse.ts:376-396 | For a closed comment: the closer is at index 2 or later, the length includes the closer, and the diagnostics are an abrupt close when the closer is at index 3 or less, an incorrect close for `--!>`, then one nested-comment error per inner `<!--` that does not end the body. |
| Leaves.NestedCountSkip | packages/compiler-core/src/parse.ts:389-395 | Skipping a stretch without `<!--` leaves the nested-comment count unchanged. |
| Leaves.NestedCountStep | packages/compiler-core/src/parse.ts:389-395 | One step of the nested-comment loop counts the `<!--` it finds exactly when it does not end the body. |
| Leaves.AdvanceOverNested | packages/compiler-core/src/parse.ts:386-395 | The nested-comment loop consumes `prevIndex - 1` characters and reports one error per nested opener the count records. |
| Leaves.ParseComment | packages/compiler-core/src/parse.ts:364-404 | Consumes `CommentLength` characters, at least 4, and reports `CommentErrors`. The content is between `<!--` and the closer, or the rest of the input. The location spans the consumed characters. |
| Leaves.ConsumeClosedComment | packages/compiler-core/src/parse.ts:376-397 | A closed comment consumes at least 5 characters, through its closer, with its diagnostics. |
| Leaves.ParseBogusComment | packages/compiler-core/src/parse.ts:406-427 | Consumes through the first `>` or to the end. The content starts after `<` for `<?` and after two characters otherwise. |
| Leaves.ParseInterpolation | packages/compiler-core/src/parse.ts:999-1041 | Without a closing delimiter: nothing consumed, `XMissingInterpolationEnd` reported, no node. Otherwise it consumes through the closer, with no diagnostic. The expression is the trimmed, decoded inner text, is not static, and its location source equals its content when no decoding happened. |
| Leaves.ParseClosedInterpolation | packages/compiler-core/src/parse.ts:1012-1041 | With the closer found, the node spans the delimiters and the expression is the trimmed, decoded raw content. |
| Leaves.ParseInterpolationInner | packages/compiler-core/src/parse.ts:1016-1026 | The inner location starts after the leading whitespace trimmed off and ends before the trailing whitespace; without decoding its source is the trimmed content. |
| Leaves.TrimOffsetsExact | packages/compiler-core/src/parse.ts:1019-1025 | The start and end offsets computed from the trimmed text bracket exactly the trimmed text. |
| Leaves.InterpolationLocExact | packages/compiler-core/src/parse.ts:1016-1037 | The expression location computed from those offsets is a valid slice whose source is the trimmed text. |
| Leaves.TrimmedAt | packages/compiler-core/src/parse.ts:1019-1025 | `indexOf` finds the trimmed text inside the untrimmed one, and the end offset formula lands just after it. |
| Leaves.InterpolationLength | packages/compiler-core/src/parse.ts:1006-1027 | Nothing is consumed exactly when no close delimiter follows the open one, or both delimiters are empty. Otherwise the interpolation takes at least both delimiters and no more than the input. |
| Leaves.EmptyDelimitersStall | packages/compiler-core/src/parse.ts:1003-1027 | With delimiters `["", ""]` every input starts with the open delimiter and the close is found at index 0, so the interpolation consumes nothing. |
| Leaves.InterpolationProgress | packages/compiler-core/src/parse.ts:1006-1027 | With a delimiter that is not empty, an interpolation whose close is found consumes at least one character. |
| Directives.ArgLength | packages/compiler-core/src/parse.ts:823 | The argument alternative is empty exactly at the end or before a dot. An unbracketed one is a maximal dot-free run. |
| Directives.MatchDirective | packages/compiler-core/src/parse.ts:822-825 | The three groups of the directive expression: the name after `v-` (present exactly when the name has that prefix, maximal), the argument after `:` or a leading shorthand, and the remainder. Each group is the slice of the name it claims to be. |
| Directives.DecomposeDirective | packages/compiler-core/src/parse.ts:821-891 | The argument span it computes lies within the name. |
| Directives.DirArg | packages/compiler-core/src/parse.ts:837-880 | An argument exists exactly when the group does. It starts where the group starts and ends after it, or after the remainder for a slot. |
| Directives.DirectiveNameCases | packages/compiler-core/src/parse.ts:827-834 | `:` and `.` give `bind` (`.` adds the modifier `prop` last), `@` gives `on`, `#` gives `slot`, and `v-x` gives the maximal name run `x`. |
| Directives.PrefixedName | packages/compiler-core/src/parse.ts:828-829 | A `v-` directive is named by its maximal run of name characters, which is never empty. |
| Directives.ShorthandName | packages/compiler-core/src/parse.ts:829-834 | Each shorthand character selects its directive name. |
| Directives.DynamicArgument | packages/compiler-core/src/parse.ts:852-863 | A bracketed argument is dynamic. It is unterminated exactly when it lacks `]`, and its content is the text between the brackets, or after `[` when unterminated. |
| Directives.StaticArgument | packages/compiler-core/src/parse.ts:864-869 | An unbracketed argument is static; for a slot it absorbs the remainder. |
| Directives.ModifiersFromRest | packages/compiler-core/src/parse.ts:890-891 | The modifiers are the remainder split at dots, plus `prop` for the `.` shorthand. |
| Directives.ArgSpanExact | packages/compiler-core/src/parse.ts:839-848 | The argument span slices out of the name exactly the argument text, with the remainder for a slot. |
| Directives.DirArgSpan | packages/compiler-core/src/parse.ts:839-848 | From where the group matched, the span covers the argument and, for a slot, the remainder. |
| Directives.SpellGroups | packages/compiler-core/src/parse.ts:822-825 | The expression splits `v-dir:arg.m1.m2` into exactly `dir`, `arg` and `.m1.m2`, at the right indices. |
| Directives.DecomposeSpell | packages/compiler-core/src/parse.ts:821-891 | Round trip: a directive spelled out from a name, a static dot-free argument and dot-free modifiers decomposes back into those parts. |
| Directives.ArgStartAsWritten | packages/compiler-core/src/parse.ts:839 | `name.lastIndexOf(arg)` finds an occurrence of the argument at or after where the group matched. |
| Directives.ArgStartAsWrittenMisplaced | packages/compiler-core/src/parse.ts:839 | In `:a.a` the argument matched at index 1, but `lastIndexOf` places it at 3. |
| Directives.ArgSpanAsWrittenOverruns | packages/compiler-core/src/parse.ts:839-848 | For `#a.a` the slot argument span as written ends at 6, past the 4-character name; the corrected span ends at 4. |
| Tags.EmitPerChar | packages/compiler-core/src/parse.ts:984-992 | One diagnostic per character matching the class, in order. |
| Tags.ScanAttributeValue | packages/compiler-core/src/parse.ts:955-997 | No value exactly when the input is empty or starts with whitespace or `>`. Quoted: no diagnostics, and it ends at the matching quote or the end of input. Unquoted: a maximal run of value characters. |
| Tags.ParseAttributeValue | packages/compiler-core/src/parse.ts:955-997 | Consumes exactly what the scan measures and reports its diagnostics, or nothing when there is no value. The location spans the value, with the quote first when quoted. |
| Tags.QuotedValueRoundTrip | packages/compiler-core/src/parse.ts:960-977 | Round trip: an escaped value in quotes reads back as the value, quoted, of that length, with no diagnostics. |
| Tags.EscapeHasNoQuote | packages/compiler-core/src/parse.ts:966 | Escaped text contains neither quote, so the closing quote is found right after it. |
| Tags.EscapedCloseQuote | packages/compiler-core/src/parse.ts:966 | The first quote after an escaped value is the closing one. |
| Tags.QuotedScan | packages/compiler-core/src/parse.ts:962-977 | A quoted value's content is the decoded text up to the matching quote, and its length includes both quotes. |
| Tags.AttrNameLength | packages/compiler-core/src/parse.ts:778 | The name is the first character and then the maximal run of `[^\t\r\n\f />=]`. |
| Tags.EqualsAt | packages/compiler-core/src/parse.ts:808 | A value follows exactly when optional whitespace and then `=` follow the name. |
| Tags.ScanAttribute | packages/compiler-core/src/parse.ts:777-816 | The name is the name prefix. Without `=` the attribute is just the name; otherwise the value starts after the `=`. |
| Tags.ScanAttributeParts | packages/compiler-core/src/parse.ts:803-816 | The length is the name, the whitespace and `=`, then the value. The value is scanned right after the `=` and following whitespace. |
| Tags.EqualsSkipped | packages/compiler-core/src/parse.ts:808-810 | Skipping whitespace, the `=`, then whitespace again ends where `EqualsAt` says a value starts. |
| Tags.ParseAttributeName | packages/compiler-core/src/parse.ts:777-803 | Consumes the name and reports, in order: duplicate, a leading `=`, and each quote or `<` in the name. |
| Tags.SkipEquals | packages/compiler-core/src/parse.ts:808-810 | Consumes exactly the whitespace, the `=` and the whitespace after it, as `EqualsAt` measures. |
| Tags.ParseEqualsValue | packages/compiler-core/src/parse.ts:806-816 | Without `=` nothing is consumed. With `=` and no value it reports `MissingAttributeValue`; otherwise the value and its diagnostics. |
| Tags.ParseNameAndValue | packages/compiler-core/src/parse.ts:777-816 | Consumes exactly the scanned attribute. The name is the scanned name and lies at the start of what was consumed, and the value's content is the scan's. It reports the name's diagnostics, then the value's. |
| Tags.QuotedExpLoc | packages/compiler-core/src/parse.ts:882-888 | The expression of a quoted directive value starts one character after the quote. |
| Tags.QuotedExpLocOk | packages/compiler-core/src/parse.ts:882-888 | The corrected expression location is a valid slice holding the value between its quotes, or after the opening quote when unclosed. |
| Tags.QuotedExpLocAsWritten | packages/compiler-core/src/parse.ts:882-888 | As written, the location's end is computed from the decoded content's length. |
| Tags.QuotedExpLocAsWrittenBreaks | packages/compiler-core/src/parse.ts:882-888 | For `:a="&amp;"` the location as written ends inside the raw text and is not the slice it claims to be. |
| Tags.QuotedExpLocAsWrittenUnclosed | packages/compiler-core/src/parse.ts:882-888 | For `:x="ab` at the end of the input the value reads as `ab`. The expression text computed as written is `a`; the corrected location gives `ab`. |
| Tags.ParseDirective | packages/compiler-core/src/parse.ts:821-933 | The directive carries the decomposed name and modifiers, the value as a non-static expression, and the argument with the decomposed content. Its argument location slices the name; an unterminated dynamic argument is reported. |
| Tags.ParseDirectiveArg | packages/compiler-core/src/parse.ts:837-880 | The argument's content and static flag are the decomposition's; a static argument can be stringified. Its location is the exact span within the name. |
| Tags.BuildProp | packages/compiler-core/src/parse.ts:817-949 | A directive when the name is spelled as one outside `v-pre`, otherwise a plain attribute with the value's content. A `v-` name without a directive name is reported. |
| Tags.ParseAttribute | packages/compiler-core/src/parse.ts:770-950 | Consumes exactly the scanned attribute and adds its name to the set. It reports name, value and directive diagnostics in order and reads as `ReadsAs` says. The location spans the attribute; inside `v-pre` the result is always a plain attribute. |
| Tags.CondenseClassSpec | packages/compiler-core/src/parse.ts:746-752 | The condensed class list is the words of the value joined by single spaces: the same words in order, no whitespace at the ends, and exactly one space between two words. |
| Tags.TrimCondenses | packages/compiler-core/src/parse.ts:751 | Trimming a list without adjacent spaces condenses it and keeps its other characters. |
| Tags.TrimKeepsWords | packages/compiler-core/src/parse.ts:751 | Trimming keeps the words. |
| Tags.CondensedIsUnwords | packages/compiler-core/src/parse.ts:751 | A string with no whitespace at the ends, no two whitespace characters together and no whitespace but the space is its words joined by single spaces. |
| Tags.CondenseClassValue | packages/compiler-core/src/parse.ts:746-752 | Only a `class` attribute with a value changes: its content becomes its words joined by single spaces. The prop keeps its name, its locations and its validity. |
| Tags.CondensedReadsAs | packages/compiler-core/src/parse.ts:746-752 | A prop read from an attribute still reads as that attribute once its `class` value is condensed, the way `parseAttributes` keeps it. |
| Tags.ScanAttributesSlash | packages/compiler-core/src/parse.ts:733-738 | The attribute list skips a stray `/` that does not close the tag, together with the whitespace after it. |
| Tags.ScanAttributesAttr | packages/compiler-core/src/parse.ts:739-764 | Otherwise the list holds the attribute scanned there, then the attributes after the whitespace that follows it. |
| Tags.ParseAttributes | packages/compiler-core/src/parse.ts:720-765 | Stops at the end of input, `>` or `/>`. An end tag yields no props. A start tag yields one prop per attribute of the list, in order, each read from its attribute. Every prop lies within the consumed text, every class value is condensed, and inside `v-pre` every prop is a plain attribute. |
| Tags.AttrsAllRead | packages/compiler-core/src/parse.ts:727-765 | When the loop stops, the props of a start tag read the whole attribute list and those of an end tag are empty. |
| Tags.ScannedAll | packages/compiler-core/src/parse.ts:727-731 | At the end condition every attribute of the list has been scanned. |
| Tags.ParseAttributesTurn | packages/compiler-core/src/parse.ts:732-764 | One loop turn consumes and keeps the props in step with the attributes scanned so far. |
| Tags.SolidusTurn | packages/compiler-core/src/parse.ts:733-738 | The turn at a stray `/` consumes it and scans no attribute. |
| Tags.AttributeTurn | packages/compiler-core/src/parse.ts:739-764 | The turn at an attribute scans it, and for a start tag adds its prop. |
| Tags.SkipSolidus | packages/compiler-core/src/parse.ts:733-737 | Reports `UnexpectedSolidusInTag`, then skips the `/` and the whitespace after it. |
| Tags.SkipAttributeGap | packages/compiler-core/src/parse.ts:760-763 | Reports `MissingWhitespaceBetweenAttributes` exactly when an attribute character follows, then skips the whitespace. |
| Tags.ReadListedAttribute | packages/compiler-core/src/parse.ts:738-758 | Consumes exactly the scanned attribute. The prop is read from that attribute as `parseAttribute` reads it, with its `class` value condensed, and lies within the consumed text. |
| Tags.ParseListedAttribute | packages/compiler-core/src/parse.ts:738-763 | One loop turn at an attribute: the prop read from the scanned attribute, then the whitespace after it skipped. |
| Tags.IsComponent | packages/compiler-core/src/parse.ts:658-715 | True exactly when the tag is not a custom element and either names a component or carries `is="vue:…"` or `v-is`. |
| Tags.ComponentTag | packages/compiler-core/src/parse.ts:658-715 | Never true of a custom element; always true of any other tag whose name makes it a component. |
| Tags.TagTypeOf | packages/compiler-core/src/parse.ts:627-643 | Inside `v-pre` every element is plain. A component is never a custom element, a `slot` type only ever comes from the tag `slot`, and a `template` type only from the tag `template`. |
| Tags.ElementTypeCases | packages/compiler-core/src/parse.ts:627-715 | Outside `v-pre` a capitalised name that is not a custom element makes a component whatever the props. An `is` marker makes a component of any tag but `slot`, `template` and custom elements. A custom element is never a component. The props matter only through `is` markers and the special template directives. |
| Tags.TagMatchLength | packages/compiler-core/src/parse.ts:546 | The tag match is `<` or `</`, a letter, then the maximal run of tag characters. |
| Tags.TagName | packages/compiler-core/src/parse.ts:546-547 | The tag name starts with a letter, holds only tag characters, and is exactly what the match consumed after `<` or `</`. |
| Tags.WithoutName | packages/compiler-core/src/parse.ts:576 | The filter is never longer than the props. |
| Tags.WithoutNameMembers | packages/compiler-core/src/parse.ts:576 | The filter keeps exactly the props with another name. |
| Tags.WithoutNameAppend | packages/compiler-core/src/parse.ts:576 | The filter works prop by prop: on a concatenation it filters each part and keeps them in order. |
| Tags.WithoutNameKeeps | packages/compiler-core/src/parse.ts:576 | A list without the name is left as it is, so filtering twice is filtering once. |
| Tags.WithoutNameRead | packages/compiler-core/src/parse.ts:568-576 | Inside `v-pre`, dropping a name from the props drops the attributes of that name from the list they were read from, and the rest stay in step. |
| Tags.HasVPre | packages/compiler-core/src/parse.ts:563-566 | A `v-pre` directive among the props is never a plain attribute, so props read inside `v-pre` never hold one. |
| Tags.VPreScanned | packages/compiler-core/src/parse.ts:563-566 | Read outside `v-pre`, the props hold a `v-pre` directive exactly when an attribute of the list spells one. |
| Tags.ParseTagOpen | packages/compiler-core/src/parse.ts:545-551 | Consumes the tag match and the whitespace after it, up to where the attribute list starts, and returns the name. |
| Tags.AttrListAt | packages/compiler-core/src/parse.ts:550-551 | The attribute list starts after the tag match and the whitespace after it, so it never starts with whitespace. |
| Tags.ParseTagProps | packages/compiler-core/src/parse.ts:554-577 | A `<pre>`-like tag switches `inPre` on. An end tag yields no props and leaves `inVPre` alone. A start tag switches `inVPre` on exactly when it was off and an attribute spells `v-pre`. Its props are then one per attribute other than `v-pre`, read again as plain attributes; otherwise one per attribute. All lie within the tag. |
| Tags.ReadAgainInVPre | packages/compiler-core/src/parse.ts:566-576 | Switches `inVPre` on, goes back to the start of the attributes and reads them again. The props are one per attribute other than `v-pre`, in order, all plain attributes. |
| Tags.ParseTagHead | packages/compiler-core/src/parse.ts:545-577 | The name is the tag match's, and the props are read from the attribute list after it, with the `v-pre` switch of `ParseTagProps`. It stops at the end of input, `>` or `/>`. |
| Tags.ParseTagClose | packages/compiler-core/src/parse.ts:580-589 | At the end of input it reports `EofInTag` and consumes nothing. Otherwise it consumes `/>` or `>`, reporting a self-closing end tag. |
| Tags.ReadTag | packages/compiler-core/src/parse.ts:545-589 | The name and the props as `ParseTagHead` reads them, then the close. A self-closing tag ends with `/>`; otherwise the tag ends with `>` unless the input ran out. |
| Tags.ParseTag | packages/compiler-core/src/parse.ts:533-656 | A start tag yields an element with its name, namespace and type, no children, and a location spanning the tag. Its props are read from the tag's attribute list, and its type is `TagTypeOf` of them. An end tag yields nothing. The tag ends with `>` unless the input ran out. |
| NodeList.PushNode | packages/compiler-core/src/parse.ts:324-342 | A node that does not continue a last text node is appended unchanged (`nodes + [node]`). A text that starts where the last text ends replaces it with one text holding both contents, starting where the previous text starts, ending where the new one ends, its source the two sources joined. Earlier nodes are untouched. |
| NodeList.PushNodeSources | packages/compiler-core/src/parse.ts:324-342 | Pushing appends the node's source text to the sources of the list. |
| NodeList.PushNodeTexts | packages/compiler-core/src/parse.ts:324-342 | Pushing appends a text node's content to the list's text content. |
| NodeList.PushNodeOk | packages/compiler-core/src/parse.ts:324-342 | Pushing a well-formed node that follows the list keeps the list well formed, ordered and free of mergeable neighbours. |
| NodeList.PushMergedOk | packages/compiler-core/src/parse.ts:330-337 | The merged node keeps the list valid. |
| NodeList.PushAppendedOk | packages/compiler-core/src/parse.ts:341 | The appended node keeps the list valid. |
| NodeList.PushNodes | packages/compiler-core/src/parse.ts:235-242 | Pushing nodes one by one is `PushAll`. |
| NodeList.PushAllOk | packages/compiler-core/src/parse.ts:235-242 | Pushing a valid list that follows a valid list yields a valid list spanning both. |
| NodeList.PushAllKinds | packages/compiler-core/src/parse.ts:235-242 | Every pushed result is an original node or a text. |
| NodeList.BlankIffStripped | packages/compiler-core/src/parse.ts:259 | A text is whitespace only exactly when stripping whitespace leaves nothing. |
| NodeList.Tidy | packages/compiler-core/src/parse.ts:255-309 | Comments are kept exactly when `comments` is on, and other non-text nodes are kept. Outside `<pre>`, a blank text is removed exactly under the removal rule; otherwise it becomes one space. Other text keeps its words; when condensing, each whitespace run becomes one space. Inside `<pre>` only carriage returns are dropped. |
| NodeList.TidyNode | packages/compiler-core/src/parse.ts:255-309 | One visit of the whitespace pass is `Tidy`. |
| NodeList.TidySlots | packages/compiler-core/src/parse.ts:255-309 | The pass keeps each node's kind and location. |
| NodeList.TidySlotsPrefix | packages/compiler-core/src/parse.ts:255 | The pass is left to right: a prefix of the slots does not depend on later ones. |
| NodeList.TidySlotAt | packages/compiler-core/src/parse.ts:257-274 | Each slot is `Tidy` of its node, with the node before read as the pass left it and the node after read as parsed. |
| NodeList.TidyAll | packages/compiler-core/src/parse.ts:255-309 | The loop computes all the slots. |
| NodeList.StripFirst | packages/compiler-core/src/parse.ts:311-317 | Only the first slot may change. |
| NodeList.Present | packages/compiler-core/src/parse.ts:321 | The filter keeps exactly the nodes in non-empty slots. |
| NodeList.PresentFirst | packages/compiler-core/src/parse.ts:321 | The first kept node comes from the first non-empty slot. |
| NodeList.PresentOk | packages/compiler-core/src/parse.ts:321 | Filtering slots that keep shape preserves a valid list. |
| NodeList.CondenseWhitespace | packages/compiler-core/src/parse.ts:252-321 | In RAWTEXT and RCDATA modes the list is unchanged; otherwise it is the tidied list, with the leading newline stripped inside a pre tag. |
| NodeList.TidiedOk | packages/compiler-core/src/parse.ts:252-321 | The whitespace pass keeps a valid list valid: well formed, ordered, no mergeable neighbours. |
| NodeList.SlotAfterStrip | packages/compiler-core/src/parse.ts:311-317 | The newline strip touches only a first text slot. |
| NodeList.TidiedComments | packages/compiler-core/src/parse.ts:305-309 | With `comments` off no comment survives; with it on every comment does. |
| NodeList.TidiedTexts | packages/compiler-core/src/parse.ts:256-299 | Outside `<pre>` every surviving text is a single space or non-blank, and has no adjacent spaces when condensing. |
| NodeList.TidiedStartsWithContent | packages/compiler-core/src/parse.ts:262-273 | Outside `<pre>` the list never starts with a blank text. |
| NodeList.TidyDropsTrailingBlank | packages/compiler-core/src/parse.ts:262-273 | Outside `<pre>` a trailing blank text is removed. |
| NodeList.TidiedKinds | packages/compiler-core/src/parse.ts:252-321 | Every surviving node is an original node or a text. |
| Parser.StartsWithEndTagOpen | packages/compiler-core/src/parse.ts:1229-1235 | A recognised end tag starts with `</` and has room for the tag name. |
| Parser.StartsWithEndTagOpenSpec | packages/compiler-core/src/parse.ts:1229-1235 | An end tag for `tag` opens the input exactly when `</` comes first, then the tag name in any ASCII case, then whitespace, `/`, `>` or the end. |
| Parser.EndTagIgnoresCase | packages/compiler-core/src/parse.ts:1232 | The test ignores ASCII case: two names equal up to case open the same end tags. |
| Parser.EndTagOpensEnd | packages/compiler-core/src/parse.ts:1229-1235 | The end tag `</tag>` is recognised for `tag`. |
| Parser.EndTagOpenIsTag | packages/compiler-core/src/parse.ts:488-489 | A recognised end tag for a letter-initial name is a tag opening, so `parseTag` may read it. |
| Parser.AtEnd | packages/compiler-core/src/parse.ts:1190-1227 | The end of the input always ends a list. Otherwise the end is `]]>` in CDATA mode and an end tag `</` in the other modes. |
| Parser.IsEnd | packages/compiler-core/src/parse.ts:1190-1227 | The result is `AtEnd`. The input is exhausted, or: in DATA mode the end tag of any open element follows; in RCDATA or RAWTEXT mode that of the innermost; in CDATA mode `]]>`. |
| Parser.ParseChildren | packages/compiler-core/src/parse.ts:143-322 | Stops exactly at the mode's end condition. The list is valid and lies within the consumed text. `inVPre` is unchanged and `inPre` never switches off. Only DATA mode yields elements and comments, only RCDATA interpolations; inside `v-pre` nothing holds an interpolation or a directive. Outside RAWTEXT and RCDATA the list is whitespace-condensed: no comment unless kept; outside `<pre>` no leading blank text, and every text one space or not blank. |
| Parser.TidyChildren | packages/compiler-core/src/parse.ts:252-321 | The whitespace pass keeps a valid list valid, and outside RAWTEXT and RCDATA leaves it whitespace-condensed. |
| Parser.ParseNext | packages/compiler-core/src/parse.ts:152-242 | One loop turn always consumes and yields a valid list within what it consumed, of the kinds the mode allows. |
| Parser.ParseInterpolationOrText | packages/compiler-core/src/parse.ts:157-160 | An interpolation, or text when the closing delimiter is missing. Always consumes, and yields a valid list of the kinds the mode allows. |
| Parser.ParseMarkup | packages/compiler-core/src/parse.ts:160-236 | The `<` branch always consumes and yields a valid list. |
| Parser.ParseEndTagMarkup | packages/compiler-core/src/parse.ts:182-202 | `</>` and a stray end tag yield nothing. `</` at the end of input is text; before another character it is a bogus comment. |
| Parser.ParseDeclaration | packages/compiler-core/src/parse.ts:163-181 | The `<!` branch yields only comments and text, within what it consumed. |
| Parser.ParseElementNode | packages/compiler-core/src/parse.ts:203-205 | The element branch always consumes and yields a valid list, leaving `inVPre` as it was. |
| Parser.ParseNonTag | packages/compiler-core/src/parse.ts:160-243 | A `<` that opens no tag always consumes and yields only plain nodes: text at the end of the input or before a bad character, a bogus comment before `?`. |
| Parser.ParseCDATA | packages/compiler-core/src/parse.ts:344-362 | Consumes `<![CDATA[`, yields only text, and consumes `]]>` unless the input ran out. |
| Parser.ParseElement | packages/compiler-core/src/parse.ts:432-509 | The element is well formed, named by the start tag and spanning everything consumed. Its props are read from its attribute list, with `v-pre` switching on exactly when an attribute spells it. A self-closing or void element has no children. `inVPre` is restored after an element that switched it on. |
| Parser.ParseStartTag | packages/compiler-core/src/parse.ts:437-444 | The start tag yields a well-formed element without children, named by the tag match, with its props read from the attribute list. |
| Parser.ParseElementBody | packages/compiler-core/src/parse.ts:457-500 | The element keeps its start tag's data, gets the children, and spans through the end tag or to where its children stopped. |
| Parser.ParseEndTag | packages/compiler-core/src/parse.ts:488-499 | The element's end tag is consumed when it follows. Otherwise nothing is consumed and `XMissingEndTag` is reported first. |
| Parser.LeaveBoundaries | packages/compiler-core/src/parse.ts:502-507 | A `<pre>` or `v-pre` boundary the element opened is closed, and nothing else changes. |
| Parser.TopLevelEnd | packages/compiler-core/src/parse.ts:1190-1227 | With no open element a DATA list ends only at the end of the input. |
| Parser.BaseParse | packages/compiler-core/src/parse.ts:104-114 | The root's children are a valid list within the template, and the root spans the whole template. |
| Parser.DefaultParserOptions | packages/compiler-core/src/parse.ts:69-81 | The default delimiters are not both empty. |
| Deps.Dep.constructor | packages/reactivity/src/dep.ts:24-29 | A new dep holds the given effects, with both masks zero. |
| Deps.Dep.WasTracked | packages/reactivity/src/dep.ts:34 | For a level bit, true exactly when that bit of `w` is set. |
| Deps.Dep.NewTracked | packages/reactivity/src/dep.ts:39 | For a level bit, true exactly when that bit of `n` is set. |
| Deps.TrackedIffBitSet | packages/reactivity/src/dep.ts:34-39 | For a level bit, the signed `> 0` test is exactly "the bit is set". |
| Deps.SetBitTracked | packages/reactivity/src/dep.ts:47 | Once the level bit is set in `w`, the dep counts as tracked at that level. |
| Deps.SetBitKeepsOthers | packages/reactivity/src/dep.ts:47 | Setting the level bit leaves every other bit alone. |
| Deps.OrIdempotent | packages/reactivity/src/dep.ts:47 | Setting the level bit twice is setting it once. |
| Deps.ClearBitSpec | packages/reactivity/src/dep.ts:69-70 | Clearing the bit makes the dep untracked at that level. Clearing twice is clearing once, and setting the bit again restores the original with the bit set. |
| Deps.InitDepMarkers | packages/reactivity/src/dep.ts:44-50 | Every dep of the effect gets the level bit in `w`; `n` and its effects are unchanged. |
| Deps.KeepMask | packages/reactivity/src/dep.ts:63 | Definition of the keep test used by `Deps.FinalizeDepMarkers`, `Deps.SelectKeepsFlagged` and `Deps.SelectOnlyFlagged`: a dep is kept unless it was tracked before and is not tracked now. |
| Deps.SelectLength | packages/reactivity/src/dep.ts:72 | The compacted list is as long as the number of kept deps. |
| Deps.SelectKeepsFlagged | packages/reactivity/src/dep.ts:60-66 | Every kept dep stays in the list. |
| Deps.SelectOnlyFlagged | packages/reactivity/src/dep.ts:60-66 | Nothing but kept deps stays in the list. |
| Deps.SelectStep | packages/reactivity/src/dep.ts:60-66 | One more element extends the selection by itself exactly when it is kept. |
| Deps.FinalizeOne | packages/reactivity/src/dep.ts:61-70 | A dropped dep loses the effect; a kept one is written at the write pointer, which moves on. Both masks lose the level bit. |
| Deps.FinalizeAt | packages/reactivity/src/dep.ts:60-71 | One loop turn extends the compacted prefix by the dep exactly when it is kept, and touches no other dep. |
| Deps.CompactDeps | packages/reactivity/src/dep.ts:58-71 | The loop leaves the kept deps in order in the prefix before the write pointer, and every dep finalized. |
| Deps.FinalizeDepMarkers | packages/reactivity/src/dep.ts:56-74 | The effect's list becomes exactly its kept deps in order. Each dropped dep loses the effect, each kept dep keeps its effects, and every dep loses the level bit in both masks. |

## Left out

- The `__COMPAT__` (Vue 2 compatibility) branches are not modelled: parse.ts:207-229, 463-483, 595-624, 685-711, 893-915.
- Diagnostics are a list of error codes. The positions passed to `onError`, the `onError`/`onWarn` callbacks themselves and the `__TEST__` assertions are not modelled.
- `advancePositionWithMutation` and `advancePositionWithClone` come from utils.ts, which is not part of this model. `AdvancePosition` stands for them: it counts line feeds and sets the column from the last one.
- `isCoreComponent` also comes from utils.ts. It is an uninterpreted option field, like every other option callback.
- `toLowerCase` is modelled for ASCII letters only.
- Strings are sequences of Unicode characters. JavaScript's `length`, `indexOf`, `slice` and the parser's offsets and columns count UTF-16 code units. In a template holding a character outside the Basic Multilingual Plane, every later offset and column differs from the source's, and `slice(1, -1)` can no longer split a surrogate pair.
- `.` in the directive expression is read as matching every character; the JavaScript line terminators U+2028 and U+2029 are not treated specially.
- Aliasing is not modelled. The AST nodes are values, so two effects are lost:
  - `pushNode` and the whitespace pass mutate node objects in place; the model rebuilds them.
  - `parseElement` pushes the element object onto `ancestors` and assigns its children later; the model pushes the element as it was after the start tag. `isEnd` reads only tags, so the end conditions are the same.
- The `removedWhitespace` flag is not modelled. The model always filters out removed slots, which gives the same list.
- `ReactiveEffect` and `trackOpBit` come from effect.ts, which is not part of this model. An effect is a class holding its dep list, and `trackOpBit` is a parameter. A dep's effect set has no iteration order.
- Deps.FinalizeDepMarkers: requires the effect's deps to be distinct. Tracking adds each dep to an effect at most once, but dep.ts itself does not check it.
- Parser.ParseChildren: does not state the diagnostics it reports, only the nodes, the consumption and the flags.
- Parser.ParseElement: does not state the diagnostics (`XMissingEndTag`, `EofInScriptHtmlCommentLikeText`) or how far the end tag reaches.
- Parser.ParseMarkup: does not state which diagnostic each malformed `<` sequence reports.
- Tags.ParseAttributes: does not state the diagnostics (`UnexpectedSolidusInTag`, `EndTagWithAttributes`, `MissingWhitespaceBetweenAttributes` and those of each attribute).
- Tags.ParseTag: does not state the diagnostics of the props, only those of the closing `>`.
- NodeList.Tidy: inside `<pre>` states only that CRLF normalisation drops carriage returns and nothing else, not which ones.
- Tags.ParseDirective: uses the corrected argument start (the group's own index, not `name.lastIndexOf(match[2])`) and the corrected quoted-expression location (over the raw text between the quotes, not the decoded content). These are the two Findings rows; the as-written computations are `Directives.ArgStartAsWritten` and `Tags.QuotedExpLocAsWritten`.
- Tags.ParseDirectiveArg: the argument location starts where the argument group matched, as corrected in the first Findings row.
- Tags.QuotedExpLoc: is the corrected location of the second Findings row, not the one parse.ts:882-888 computes.
- Tags.BuildProp: its directive branch inherits the corrected locations of `Tags.ParseDirective`.
- Tags.ParseAttribute: reads as `ReadsAs` with the corrected directive locations of `Tags.ParseDirective`.
- Directives.DecomposeDirective: computes the corrected argument start of the first Findings row.
- Directives.DirArg: its argument starts at the group's own index, as corrected in the first Findings row.
- Parser.ParseChildren: states that no blank text starts a list outside `<pre>`, not that none ends it. A blank text kept before a comment that is then dropped can end the list; `NodeList.TidyDropsTrailingBlank` states what the pass does to a blank last text.
- Parser.DefaultParserOptions: the `comments` default is the build flag `__DEV__`; here it is a parameter.

## Findings

| source | as written | input that shows it | evidently intended | confidence | as-written member | corrected member |
|---|---|---|---|---|---|---|
| packages/compiler-core/src/parse.ts:839-848 | The argument's start is `name.lastIndexOf(match[2])`, the last occurrence of the argument text anywhere in the name. | `:a.a` (argument `a` matched at index 1, placed at 3); `#a.a` (slot argument span ends at 6 in a 4-character name) | The start is where the regex group matched. | not executed | Directives.ArgStartAsWrittenMisplaced | Directives.ArgSpanExact |
| packages/compiler-core/src/parse.ts:882-888 | The end of a quoted directive value's location is advanced over the DECODED content, so a value with entities gets a location shorter than its raw text. Its source is `slice(1, -1)`, which drops the last character even when the quote is never closed. | `:a="&amp;"` (content `&`, raw text `&amp;`); `:x="ab` at the end of the input (value `ab`, expression text `a`) | The location spans the raw text between the quotes, or after the opening quote when unclosed. | not executed | Tags.QuotedExpLocAsWrittenBreaks | Tags.QuotedExpLocOk |
| packages/compiler-core/src/parse.ts:1003-1027 | With the delimiters option `["", ""]` every input starts with the open delimiter, `indexOf` finds the close at index 0, and `parseInterpolation` consumes nothing, so the loop of `parseChildren` (parse.ts:152) never ends. | delimiters `["", ""]`, any template | The two delimiters are never both empty, which the parser requires of its options (`DelimitersOk`). | not executed | Leaves.EmptyDelimitersStall | Leaves.InterpolationProgress |
