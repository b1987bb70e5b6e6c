/**
 * How an attribute name spelled as a directive (`v-on:click.stop`, `:id`,
 * `.value`, `@click`, `#default`) is decomposed into a directive name, an
 * argument and modifiers. The regular expression of the parser is replaced
 * by the explicit scan `MatchDirective`.
 */
module Directives {
  import opened Wrappers
  import opened Chars

  /** `/^(v-[A-Za-z0-9-]|:|\.|@|#)/`: the attribute is treated as a directive. */
  predicate IsDirectiveSyntax(name: string) {
    || (|name| >= 3 && name[0] == 'v' && name[1] == '-' && IsDirectiveNameChar(name[2]))
    || (|name| >= 1 && (name[0] == ':' || name[0] == '.' || name[0] == '@' || name[0] == '#'))
  }

  /**
   * The three groups of
   * `/(?:^v-([a-z0-9-]+))?(?:(?::|^\.|^@|^#)(\[[^\]]+\]|[^\.]+))?(.+)?$/i`,
   * with the index at which the argument group and the remainder begin.
   */
  datatype Groups = Groups(name: Option<string>, arg: Option<string>, argAt: nat, rest: Option<string>, restAt: nat)

  /** `v-` (either case, the expression is case-insensitive) followed by a name character. */
  predicate HasNamePrefix(name: string) {
    |name| >= 3 && (name[0] == 'v' || name[0] == 'V') && name[1] == '-' && IsDirectiveNameChar(name[2])
  }

  /**
   * Length of the argument alternative starting at `q`: `\[[^\]]+\]` when
   * it matches, else the run `[^\.]+`; 0 when neither matches.
   */
  function ArgLength(name: string, q: nat): (k: nat)
    requires q <= |name|
    ensures q + k <= |name|
    ensures k == 0 <==> q == |name| || name[q] == '.'
    ensures k > 0 && name[q] != '[' ==>
              (forall i :: q <= i < q + k ==> name[i] != '.') && (q + k == |name| || name[q + k] == '.')
  {
    var close := if q + 1 <= |name| then IndexOf(name, "]", q + 1) else -1;
    if q < |name| && name[q] == '[' && close > q + 1 then
      close - q + 1
    else
      SpanOfAll(name, NotDot, q);
      SpanOf(name, NotDot, q)
  }

  /** The groups the expression captures; `.` is taken to match every character. */
  function MatchDirective(name: string): (g: Groups)
    ensures g.restAt <= |name|
    ensures g.name.Some? <==> HasNamePrefix(name)
    ensures g.name.Some? ==> var n := g.name.value;
              && 2 + |n| <= |name| && n == name[2..2 + |n|] && n != []
              && (forall i :: 0 <= i < |n| ==> IsDirectiveNameChar(n[i]))
              && (2 + |n| == |name| || !IsDirectiveNameChar(name[2 + |n|]))
    ensures g.arg.Some? ==> var a := g.arg.value;
              && 1 <= g.argAt && a != [] && g.argAt + |a| == g.restAt
              && name[g.argAt..g.restAt] == a
              && (if g.name.Some? then g.argAt == 3 + |g.name.value| && name[g.argAt - 1] == ':'
                  else g.argAt == 1 && name[0] in {':', '.', '@', '#'})
    ensures g.arg.None? ==> g.restAt == (if g.name.Some? then 2 + |g.name.value| else 0)
    ensures g.rest.Some? <==> g.restAt < |name|
    ensures g.rest.Some? ==> g.rest.value == name[g.restAt..]
  {
    var p := if HasNamePrefix(name) then SpanOfAll(name, IsDirectiveNameChar, 2); 2 + SpanOf(name, IsDirectiveNameChar, 2) else 0;
    var n := if HasNamePrefix(name) then Some(name[2..p]) else None;
    var sigil := (p < |name| && name[p] == ':') || (p == 0 && |name| > 0 && name[0] in {'.', '@', '#'});
    var k := if sigil then ArgLength(name, p + 1) else 0;
    var a := if k > 0 then Some(name[p + 1..p + 1 + k]) else None;
    var restAt := if k > 0 then p + 1 + k else p;
    Groups(n, a, p + 1, if restAt < |name| then Some(name[restAt..]) else None, restAt)
  }

  /** The argument of a directive: its expression text and where it lies in the name. */
  datatype DirectiveArg = DirectiveArg(content: string, isStatic: bool, unterminated: bool, start: nat, end: nat)

  datatype DirectiveParts = DirectiveParts(dirName: string, arg: Option<DirectiveArg>, modifiers: seq<string>)

  /**
   * The directive `parseAttribute` builds from `name`: the directive name
   * (`bind`, `on`, `slot` for the shorthands), the argument with brackets
   * stripped from a dynamic one, and the modifiers, `prop` last for the `.`
   * shorthand. The argument's `start` is the index where its group begins.
   */
  function DecomposeDirective(name: string): (d: DirectiveParts)
    requires IsDirectiveSyntax(name)
    ensures d.arg.Some? ==> d.arg.value.start <= d.arg.value.end <= |name|
  {
    var g := MatchDirective(name);
    var dirName := DirName(name, g);
    DirectiveParts(dirName, DirArg(g, dirName == "slot"), Modifiers(name, g))
  }

  /** `match[1]`, or the name a shorthand stands for. */
  function DirName(name: string, g: Groups): string {
    if g.name.Some? then g.name.value
    else if StartsWith(name, ".") || StartsWith(name, ":") then "bind"
    else if StartsWith(name, "@") then "on"
    else "slot"
  }

  /**
   * The argument built from `match[2]`: dynamic when bracketed (brackets
   * stripped, unterminated when the closing one is missing); a static slot
   * argument absorbs the remainder.
   */
  function DirArg(g: Groups, isSlot: bool): (a: Option<DirectiveArg>)
    requires g.arg.Some? ==> g.arg.value != []
    ensures a.Some? <==> g.arg.Some?
    ensures a.Some? ==> a.value.start == g.argAt
    ensures a.Some? ==> a.value.end == g.argAt + |g.arg.value| + (if isSlot && g.rest.Some? then |g.rest.value| else 0)
  {
    if g.arg.None? then None
    else
      var raw := g.arg.value;
      var extra := if isSlot && g.rest.Some? then |g.rest.value| else 0;
      var isStatic := raw[0] != '[';
      var unterminated := !isStatic && raw[|raw| - 1] != ']';
      var content :=
        if !isStatic then (if unterminated then raw[1..] else raw[1..|raw| - 1])
        else if isSlot && g.rest.Some? then raw + g.rest.value
        else raw;
      Some(DirectiveArg(content, isStatic, unterminated, g.argAt, g.argAt + |raw| + extra))
  }

  /** `match[3].slice(1).split('.')`, with `prop` pushed for the `.` shorthand. */
  function Modifiers(name: string, g: Groups): seq<string>
    requires g.rest.Some? ==> g.rest.value != []
  {
    (if g.rest.Some? then SplitDots(g.rest.value[1..]) else []) + (if StartsWith(name, ".") then ["prop"] else [])
  }

  /**
   * The directive name: `bind` for `:` and `.` (the latter adding the `prop`
   * modifier last), `on` for `@`, `slot` for `#`, and for `v-` the maximal
   * run of `[A-Za-z0-9-]` after it.
   */
  lemma DirectiveNameCases(name: string)
    requires IsDirectiveSyntax(name)
    ensures var d := DecomposeDirective(name);
      && (name[0] == ':' ==> d.dirName == "bind")
      && (name[0] == '.' ==> d.dirName == "bind" && d.modifiers != [] && d.modifiers[|d.modifiers| - 1] == "prop")
      && (name[0] == '@' ==> d.dirName == "on")
      && (name[0] == '#' ==> d.dirName == "slot")
      && (name[0] == 'v' ==> d.dirName == name[2..2 + SpanOf(name, IsDirectiveNameChar, 2)] && d.dirName != [])
  {
    if name[0] == 'v' {
      PrefixedName(name);
    } else {
      ShorthandName(name);
    }
  }

  /** A `v-` name's directive name is the run of name characters after `v-`. */
  lemma PrefixedName(name: string)
    requires IsDirectiveSyntax(name) && name[0] == 'v'
    ensures DirName(name, MatchDirective(name)) == name[2..2 + SpanOf(name, IsDirectiveNameChar, 2)] != []
  {
    var g := MatchDirective(name);
    assert HasNamePrefix(name);
    SpanOfExact(name, IsDirectiveNameChar, 2, |g.name.value|);
  }

  /** A shorthand's directive name is fixed by its sigil; `.` also adds `prop` last. */
  lemma ShorthandName(name: string)
    requires IsDirectiveSyntax(name) && name[0] != 'v'
    ensures var dirName := DirName(name, MatchDirective(name));
      && (name[0] == ':' ==> dirName == "bind")
      && (name[0] == '.' ==> dirName == "bind" && StartsWith(name, "."))
      && (name[0] == '@' ==> dirName == "on")
      && (name[0] == '#' ==> dirName == "slot")
  {
    assert !HasNamePrefix(name);
    if name[0] == ':' {
      assert StartsWith(name, ":");
    } else if name[0] == '.' {
      assert StartsWith(name, ".");
    } else if name[0] == '@' {
      assert StartsWith(name, "@") && !StartsWith(name, ":") && !StartsWith(name, ".");
    } else {
      assert !StartsWith(name, "@") && !StartsWith(name, ":") && !StartsWith(name, ".");
    }
  }

  /**
   * A bracketed argument is dynamic: its content is the text inside the
   * brackets, and it is reported unterminated exactly when the closing
   * bracket is missing, in which case only the opening one is dropped.
   */
  lemma DynamicArgument(name: string)
    requires IsDirectiveSyntax(name)
    requires MatchDirective(name).arg.Some? && MatchDirective(name).arg.value[0] == '['
    ensures var raw := MatchDirective(name).arg.value;
            var a := DecomposeDirective(name).arg;
      && a.Some? && !a.value.isStatic
      && (a.value.unterminated <==> raw[|raw| - 1] != ']')
      && (a.value.unterminated ==> a.value.content == raw[1..])
      && (!a.value.unterminated ==> |raw| >= 2 && a.value.content == raw[1..|raw| - 1])
  {
  }

  /**
   * A static argument of `v-slot` (or `#`) absorbs the dotted remainder, so
   * slot names may contain dots; any other static argument is the group itself.
   */
  lemma StaticArgument(name: string)
    requires IsDirectiveSyntax(name)
    requires MatchDirective(name).arg.Some? && MatchDirective(name).arg.value[0] != '['
    ensures var g := MatchDirective(name);
            var d := DecomposeDirective(name);
      && d.arg.Some? && d.arg.value.isStatic && !d.arg.value.unterminated
      && d.arg.value.content == g.arg.value + (if d.dirName == "slot" && g.rest.Some? then g.rest.value else [])
  {
  }

  /** The modifiers are the dot-separated pieces of the remainder after its first character. */
  lemma ModifiersFromRest(name: string)
    requires IsDirectiveSyntax(name)
    ensures var g := MatchDirective(name);
            var d := DecomposeDirective(name);
      d.modifiers == (if g.rest.Some? then SplitDots(g.rest.value[1..]) else []) + (if name[0] == '.' then ["prop"] else [])
  {
    assert name[0] == '.' <==> StartsWith(name, ".");
  }

  /**
   * The argument's location covers exactly its own text in the name, together
   * with the remainder that a slot argument absorbs.
   */
  lemma ArgSpanExact(name: string)
    requires IsDirectiveSyntax(name)
    requires DecomposeDirective(name).arg.Some?
    ensures var g := MatchDirective(name);
            var d := DecomposeDirective(name);
            var a := d.arg.value;
      name[a.start..a.end] == g.arg.value + (if d.dirName == "slot" && g.rest.Some? then g.rest.value else [])
  {
    var g := MatchDirective(name);
    DirArgSpan(name, g, DirName(name, g) == "slot");
  }

  /** `ArgSpanExact` for the groups alone. */
  lemma DirArgSpan(name: string, g: Groups, isSlot: bool)
    requires g.arg.Some? && g.arg.value != [] && g.argAt + |g.arg.value| == g.restAt <= |name|
    requires name[g.argAt..g.restAt] == g.arg.value
    requires g.rest.Some? ==> g.rest.value == name[g.restAt..]
    ensures var a := DirArg(g, isSlot).value;
      a.start <= a.end <= |name| &&
      name[a.start..a.end] == g.arg.value + (if isSlot && g.rest.Some? then g.rest.value else [])
  {
    if isSlot && g.rest.Some? {
      assert name[g.argAt..|name|] == name[g.argAt..g.restAt] + name[g.restAt..];
    }
  }

  /** How the template syntax writes a directive in full: `v-dir:arg.m1.m2`. */
  function Spell(dir: string, arg: string, modifiers: seq<string>): string {
    "v-" + dir + ":" + arg + JoinDotted(modifiers)
  }

  /**
   * Decomposition inverts spelling: a directive written out in full with a
   * static, dot-free argument yields its name, argument and modifiers back.
   */
  lemma SpellGroups(dir: string, arg: string, modifiers: seq<string>)
    requires dir != [] && forall i :: 0 <= i < |dir| ==> IsDirectiveNameChar(dir[i])
    requires arg != [] && arg[0] != '[' && DotFree(arg)
    requires modifiers != [] ==> JoinDotted(modifiers)[0] == '.'
    ensures MatchDirective(Spell(dir, arg, modifiers))
         == Groups(Some(dir), Some(arg), 3 + |dir|,
                   if modifiers == [] then None else Some(JoinDotted(modifiers)), 3 + |dir| + |arg|)
  {
    var name := Spell(dir, arg, modifiers);
    var tail := JoinDotted(modifiers);
    var q, r := 3 + |dir|, 3 + |dir| + |arg|;
    SpellLayout(dir, arg, tail);
    SpellScan(name, |dir|, |arg|);
    assert MatchDirective(name) == Groups(Some(name[2..q - 1]), Some(name[q..r]), q,
                                          if r < |name| then Some(name[r..]) else None, r);
    assert modifiers == [] <==> r == |name|;
  }

  /** Where each part lies in `v-dir:arg` followed by `tail`. */
  lemma SpellLayout(dir: string, arg: string, tail: string)
    ensures var name := "v-" + dir + ":" + arg + tail;
            var q := 3 + |dir|;
      && |name| == q + |arg| + |tail|
      && name[0] == 'v' && name[1] == '-' && name[q - 1] == ':'
      && name[2..q - 1] == dir && name[q..q + |arg|] == arg && name[q + |arg|..] == tail
      && (forall i :: 0 <= i < |dir| ==> name[2 + i] == dir[i])
      && (forall i :: 0 <= i < |arg| ==> name[q + i] == arg[i])
  {
  }

  /** The scans of `MatchDirective` stop at the ends of the name and the argument. */
  lemma SpellScan(name: string, n: nat, m: nat)
    requires 3 + n + m <= |name| && n > 0 && m > 0
    requires name[0] == 'v' && name[1] == '-' && name[2 + n] == ':' && name[3 + n] != '['
    requires forall i :: 2 <= i < 2 + n ==> IsDirectiveNameChar(name[i])
    requires forall i :: 3 + n <= i < 3 + n + m ==> name[i] != '.'
    requires 3 + n + m == |name| || name[3 + n + m] == '.'
    ensures HasNamePrefix(name) && SpanOf(name, IsDirectiveNameChar, 2) == n
    ensures ArgLength(name, 3 + n) == m
  {
    SpanOfExact(name, IsDirectiveNameChar, 2, n);
    SpanOfExact(name, NotDot, 3 + n, m);
  }

  /**
   * Decomposition inverts spelling: a directive written out in full with a
   * static, dot-free argument yields its name, argument and modifiers back.
   */
  lemma {:induction false} DecomposeSpell(dir: string, arg: string, modifiers: seq<string>)
    requires dir != [] && forall i :: 0 <= i < |dir| ==> IsDirectiveNameChar(dir[i])
    requires arg != [] && arg[0] != '[' && DotFree(arg)
    requires forall j :: 0 <= j < |modifiers| ==> DotFree(modifiers[j])
    requires dir != "slot"
    ensures var d := DecomposeDirective(Spell(dir, arg, modifiers));
      && d.dirName == dir
      && d.arg == Some(DirectiveArg(arg, true, false, 3 + |dir|, 3 + |dir| + |arg|))
      && d.modifiers == modifiers
  {
    var name := Spell(dir, arg, modifiers);
    if modifiers != [] {
      assert JoinDotted(modifiers) == "." + modifiers[0] + JoinDotted(modifiers[1..]);
      SplitJoin(modifiers);
    }
    SpellGroups(dir, arg, modifiers);
    assert name[0] == 'v';
    assert !StartsWith(name, ".");
  }

  /**
   * `name.lastIndexOf(match[2])`, the argument's start as the source computes
   * it: the LAST place the argument's text occurs in the name.
   */
  function ArgStartAsWritten(name: string, g: Groups): (r: int)
    requires g.arg.Some?
    requires g.argAt + |g.arg.value| <= |name| && name[g.argAt..g.argAt + |g.arg.value|] == g.arg.value
    ensures OccursAt(name, g.arg.value, r)
    ensures g.argAt <= r
  {
    assert OccursAt(name, g.arg.value, g.argAt);
    LastIndexOf(name, g.arg.value)
  }

  /** In `:a.a` the argument `a` starts at index 1, but its text occurs last at index 3. */
  lemma ArgStartAsWrittenMisplaced()
    ensures var g := MatchDirective(":a.a");
      && g.arg == Some("a") && g.argAt == 1
      && ArgStartAsWritten(":a.a", g) == 3
  {
    var name := ":a.a";
    var g := MatchDirective(name);
    assert !HasNamePrefix(name);
    SpanOfExact(name, NotDot, 1, 1);
    assert ArgLength(name, 1) == 1;
    assert name[1..2] == "a";
    assert g.arg == Some("a");
    assert OccursAt(name, "a", 3);
  }

  /**
   * In `#a.a` the slot argument `a.a` starts at 1; read from index 3 its span
   * `3 + |"a"| + |".a"|` ends at 6, past the end of the four-character name.
   */
  lemma ArgSpanAsWrittenOverruns()
    ensures var g := MatchDirective("#a.a");
      && g.arg == Some("a") && g.rest == Some(".a")
      && ArgStartAsWritten("#a.a", g) + |g.arg.value| + |g.rest.value| == 6 > |"#a.a"|
      && DecomposeDirective("#a.a").arg.value.end == 4
  {
    var name := "#a.a";
    var g := MatchDirective(name);
    assert !HasNamePrefix(name);
    SpanOfExact(name, NotDot, 1, 1);
    assert ArgLength(name, 1) == 1;
    assert name[1..2] == "a";
    assert g.arg == Some("a");
    assert OccursAt(name, "a", 3);
    assert StartsWith(name, "#") && !StartsWith(name, ":") && !StartsWith(name, "@") && !StartsWith(name, ".");
  }
}
