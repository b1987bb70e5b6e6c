/**
 * The sibling lists `parseChildren` builds: `pushNode`, which merges a text
 * node into a text node that ends where it starts, and the whitespace pass
 * that runs over a finished list.
 */
module NodeList {
  import opened Wrappers
  import opened Chars
  import opened Positions
  import opened Ast

  // ---------------------------------------------------------------- pushNode

  /**
   * `pushNode`: a text node that starts where a preceding text node ends is
   * merged into it; any other node is appended.
   */
  function PushNode(nodes: seq<Node>, node: Node): (r: seq<Node>)
    ensures |r| == |nodes| + (if nodes != [] && Mergeable(nodes[|nodes| - 1], node) then 0 else 1)
    ensures r[..|r| - 1] == nodes[..|r| - 1]
    ensures r[|r| - 1].loc.end == node.loc.end && r[|r| - 1].Text? == node.Text?
    ensures !(nodes != [] && Mergeable(nodes[|nodes| - 1], node)) ==> r == nodes + [node]
    ensures nodes != [] && Mergeable(nodes[|nodes| - 1], node) ==>
      r[|r| - 1] == Text(nodes[|nodes| - 1].content + node.content,
        SourceLocation(nodes[|nodes| - 1].loc.start, node.loc.end, nodes[|nodes| - 1].loc.source + node.loc.source))
  {
    if nodes != [] && Mergeable(nodes[|nodes| - 1], node) then
      var prev := nodes[|nodes| - 1];
      nodes[..|nodes| - 1]
        + [Text(prev.content + node.content, SourceLocation(prev.loc.start, node.loc.end, prev.loc.source + node.loc.source))]
    else
      nodes + [node]
  }

  /** The sources of the nodes, one after another. */
  function Sources(nodes: seq<Node>): string {
    if nodes == [] then [] else Sources(nodes[..|nodes| - 1]) + nodes[|nodes| - 1].loc.source
  }

  /** The contents of the text nodes, one after another. */
  function Texts(nodes: seq<Node>): string {
    if nodes == [] then []
    else Texts(nodes[..|nodes| - 1]) + (if nodes[|nodes| - 1].Text? then nodes[|nodes| - 1].content else [])
  }

  /** Pushing a node, merged or not, adds its source text after the sources already there. */
  lemma PushNodeSources(nodes: seq<Node>, node: Node)
    ensures Sources(PushNode(nodes, node)) == Sources(nodes) + node.loc.source
  {
    var r := PushNode(nodes, node);
    if nodes != [] && Mergeable(nodes[|nodes| - 1], node) {
      assert r[..|r| - 1] == nodes[..|nodes| - 1];
    } else {
      assert r[..|r| - 1] == nodes;
    }
  }

  /** Pushing a node, merged or not, adds its text after the text already there. */
  lemma PushNodeTexts(nodes: seq<Node>, node: Node)
    ensures Texts(PushNode(nodes, node)) == Texts(nodes) + (if node.Text? then node.content else [])
  {
    var r := PushNode(nodes, node);
    if nodes != [] && Mergeable(nodes[|nodes| - 1], node) {
      assert r[..|r| - 1] == nodes[..|nodes| - 1];
    } else {
      assert r[..|r| - 1] == nodes;
    }
  }

  /**
   * A well-formed node read after the list keeps the list well formed: in
   * order, free of mergeable neighbours, every location a slice of the
   * template.
   */
  lemma PushNodeOk(nodes: seq<Node>, node: Node, orig: string, a: int, b: int, c: int)
    requires NodesOk(nodes, orig, a, b) && WellFormed(node, orig)
    requires a <= b <= node.loc.start.offset && node.loc.end.offset <= c
    ensures NodesOk(PushNode(nodes, node), orig, a, c)
  {
    if nodes != [] && Mergeable(nodes[|nodes| - 1], node) {
      PushMergedOk(nodes, node, orig, a, b, c);
    } else {
      PushAppendedOk(nodes, node, orig, a, b, c);
    }
  }

  lemma PushMergedOk(nodes: seq<Node>, node: Node, orig: string, a: int, b: int, c: int)
    requires NodesOk(nodes, orig, a, b) && WellFormed(node, orig)
    requires a <= b <= node.loc.start.offset && node.loc.end.offset <= c
    requires nodes != [] && Mergeable(nodes[|nodes| - 1], node)
    ensures NodesOk(PushNode(nodes, node), orig, a, c)
  {
    var r := PushNode(nodes, node);
    var k := |nodes| - 1;
    var prev := nodes[k];
    assert prev in nodes;
    LocJoin(prev.loc, node.loc, orig);
    var m := r[k];
    assert r == nodes[..k] + [m];
    assert WellFormed(m, orig);
    forall n | n in r ensures WellFormed(n, orig) && a <= n.loc.start.offset && n.loc.end.offset <= c {
      if n != m {
        assert n in nodes[..k];
      }
    }
    ReplaceLastOrdered(nodes, m);
  }

  /** A last node replaced by one that starts where it started and is of the same kind keeps the list ordered and unmergeable. */
  lemma ReplaceLastOrdered(nodes: seq<Node>, m: Node)
    requires nodes != [] && Ordered(nodes) && NoMergeable(nodes)
    requires m.loc.start == nodes[|nodes| - 1].loc.start && m.Text? == nodes[|nodes| - 1].Text?
    ensures Ordered(nodes[..|nodes| - 1] + [m]) && NoMergeable(nodes[..|nodes| - 1] + [m])
  {
    var k := |nodes| - 1;
    var r := nodes[..k] + [m];
    forall i, j | 0 <= i < j < |r| ensures r[i].loc.end.offset <= r[j].loc.start.offset {
      assert r[i] == nodes[i];
      if j < k {
        assert r[j] == nodes[j];
      }
    }
    forall i | 0 <= i < |r| - 1 ensures !Mergeable(r[i], r[i + 1]) {
      assert r[i] == nodes[i];
      if i + 1 < k {
        assert r[i + 1] == nodes[i + 1];
      }
    }
  }

  lemma PushAppendedOk(nodes: seq<Node>, node: Node, orig: string, a: int, b: int, c: int)
    requires NodesOk(nodes, orig, a, b) && WellFormed(node, orig)
    requires a <= b <= node.loc.start.offset && node.loc.end.offset <= c
    requires !(nodes != [] && Mergeable(nodes[|nodes| - 1], node))
    ensures NodesOk(PushNode(nodes, node), orig, a, c)
  {
    var r := nodes + [node];
    assert PushNode(nodes, node) == r;
    forall n | n in r ensures WellFormed(n, orig) && a <= n.loc.start.offset && n.loc.end.offset <= c {
      if n != node {
        assert n in nodes;
      }
    }
    assert forall i :: 0 <= i < |nodes| ==> nodes[i].loc.end.offset <= b by {
      forall i | 0 <= i < |nodes| ensures nodes[i].loc.end.offset <= b {
        assert nodes[i] in nodes;
      }
    }
    AppendOrdered(nodes, node, b);
  }

  /** A node that starts after every node of an ordered, unmergeable list, and is not mergeable with its last, extends it. */
  lemma AppendOrdered(nodes: seq<Node>, node: Node, b: int)
    requires Ordered(nodes) && NoMergeable(nodes)
    requires forall i :: 0 <= i < |nodes| ==> nodes[i].loc.end.offset <= b
    requires b <= node.loc.start.offset
    requires !(nodes != [] && Mergeable(nodes[|nodes| - 1], node))
    ensures Ordered(nodes + [node]) && NoMergeable(nodes + [node])
  {
    var r := nodes + [node];
    forall i, j | 0 <= i < j < |r| ensures r[i].loc.end.offset <= r[j].loc.start.offset {
      assert r[i] == nodes[i];
      if j < |nodes| {
        assert r[j] == nodes[j];
      }
    }
    forall i | 0 <= i < |r| - 1 ensures !Mergeable(r[i], r[i + 1]) {
      assert r[i] == nodes[i];
      if i + 1 < |nodes| {
        assert r[i + 1] == nodes[i + 1];
      }
    }
  }

  /** Every node pushed in turn, as `parseChildren` does with the list `parseCDATA` returns. */
  function PushAll(nodes: seq<Node>, more: seq<Node>): seq<Node>
    decreases |more|
  {
    if more == [] then nodes else PushAll(PushNode(nodes, more[0]), more[1..])
  }

  /** The loop that pushes a list of nodes one by one. */
  method PushNodes(nodes: seq<Node>, more: seq<Node>) returns (r: seq<Node>)
    ensures r == PushAll(nodes, more)
  {
    r := nodes;
    for i := 0 to |more|
      invariant PushAll(r, more[i..]) == PushAll(nodes, more)
    {
      assert more[i..][1..] == more[i + 1..];
      r := PushNode(r, more[i]);
    }
    assert more[|more|..] == [];
  }

  /** A well-formed list read after a well-formed list, pushed node by node, gives a well-formed list. */
  lemma {:induction false} PushAllOk(nodes: seq<Node>, more: seq<Node>, orig: string, a: int, b: int, c: int)
    requires NodesOk(nodes, orig, a, b) && NodesOk(more, orig, b, c) && a <= b <= c
    ensures NodesOk(PushAll(nodes, more), orig, a, c)
    decreases |more|
  {
    if more == [] {
      NodesOkWeaken(nodes, orig, a, b, a, c);
    } else {
      var x := more[0];
      assert x in more;
      PushNodeOk(nodes, x, orig, a, b, x.loc.end.offset);
      NodesOkTail(more, orig, b, c);
      PushAllOk(PushNode(nodes, x), more[1..], orig, a, x.loc.end.offset, c);
    }
  }

  /** Pushing never invents a node other than a merged text. */
  lemma {:induction false} PushAllKinds(nodes: seq<Node>, more: seq<Node>)
    ensures forall n <- PushAll(nodes, more) :: n in nodes || n in more || n.Text?
    decreases |more|
  {
    if more != [] {
      var p := PushNode(nodes, more[0]);
      assert forall n <- p :: n in nodes || n == more[0] || n.Text? by {
        if nodes != [] && Mergeable(nodes[|nodes| - 1], more[0]) {
          assert p == nodes[..|nodes| - 1] + [p[|p| - 1]];
          forall n | n in p ensures n in nodes || n.Text? {
            if n != p[|p| - 1] {
              assert n in nodes[..|nodes| - 1];
            }
          }
        } else {
          assert p == nodes + [more[0]];
        }
      }
      PushAllKinds(p, more[1..]);
      assert forall n <- more[1..] :: n in more;
    }
  }

  // ------------------------------------------------------- the whitespace pass

  /** `/[\r\n]/.test(s)`. */
  predicate HasLineBreak(s: string) {
    exists i :: 0 <= i < |s| && (s[i] == '\r' || s[i] == '\n')
  }

  /** Two comments, a comment and an element, or two elements around a text with a line break. */
  predicate BetweenRemovable(prev: Node, next: Node, content: string) {
    || (prev.Comment? && next.Comment?)
    || (prev.Comment? && next.Element?)
    || (prev.Element? && next.Comment?)
    || (prev.Element? && next.Element? && HasLineBreak(content))
  }

  /**
   * Whether a whitespace-only text is removed: it has no node before it
   * (none in the list, or one the pass already removed) or none after it;
   * or, when condensing, it sits between two comments, a comment and an
   * element, or two elements and contains a line break.
   */
  predicate DropsBlank(prev: Option<Node>, next: Option<Node>, content: string, condense: bool) {
    || prev.None?
    || next.None?
    || (condense && BetweenRemovable(prev.value, next.value, content))
  }

  /** The pass keeps a node's kind and location; only a text's content may change. */
  predicate SameShape(m: Node, n: Node) {
    m.loc == n.loc && m.Text? == n.Text? && (!n.Text? ==> m == n)
  }

  /** A whitespace-only string is exactly one with no characters left after stripping whitespace. */
  lemma {:induction false} BlankIffStripped(s: string)
    ensures AllHtmlSpace(s) <==> Strip(s, IsHtmlSpace) == []
  {
    if s != [] {
      BlankIffStripped(s[1..]);
      assert AllHtmlSpace(s) <==> IsHtmlSpace(s[0]) && AllHtmlSpace(s[1..]);
    }
  }

  /**
   * What the pass leaves in one slot, given what it left in the slot before
   * and the node after it as parsed. Outside `<pre>` a whitespace-only text
   * is removed or becomes one space and other text is condensed when the
   * strategy says so; inside `<pre>` CRLF becomes LF; comments stay only
   * when the options keep them.
   */
  function Tidy(node: Node, prev: Option<Node>, next: Option<Node>, inPre: bool, o: Options): (r: Option<Node>)
    ensures r.Some? ==> SameShape(r.value, node)
    ensures node.Comment? ==> (r.Some? <==> o.comments)
    ensures !node.Text? && !node.Comment? ==> r == Some(node)
    ensures node.Text? && !inPre && AllHtmlSpace(node.content) ==>
      (r.None? <==> DropsBlank(prev, next, node.content, !o.whitespace.Preserve?)) && (r.Some? ==> r.value.content == " ")
    ensures node.Text? && !inPre && !AllHtmlSpace(node.content) ==>
      && r.Some? && !AllHtmlSpace(r.value.content)
      && Strip(r.value.content, IsHtmlSpace) == Strip(node.content, IsHtmlSpace)
      && (!o.whitespace.Preserve? ==> NoAdjacent(r.value.content, IsHtmlSpace))
    ensures node.Text? && !inPre && !AllHtmlSpace(node.content) && !o.whitespace.Preserve? ==>
      && r.value.content == SquashRuns(node.content, IsHtmlSpace, false)
      && Words(r.value.content, IsHtmlSpace) == Words(node.content, IsHtmlSpace)
    ensures node.Text? && !inPre && !AllHtmlSpace(node.content) && o.whitespace.Preserve? ==> r == Some(node)
    ensures node.Text? && inPre ==>
      r.Some? && Strip(r.value.content, IsCarriageReturn) == Strip(node.content, IsCarriageReturn)
  {
    match node
    case Text(content, loc) =>
      if inPre then
        ReplaceCrlfDropsOnlyCr(content);
        Some(Text(ReplaceCrlf(content), loc))
      else if AllHtmlSpace(content) then
        if DropsBlank(prev, next, content, !o.whitespace.Preserve?) then None else Some(Text(" ", loc))
      else if !o.whitespace.Preserve? then
        var c := CollapseRuns(content, IsHtmlSpace);
        CollapseKeepsOthers(content, IsHtmlSpace);
        CollapseNoAdjacent(content, IsHtmlSpace);
        CollapseIsSquash(content, IsHtmlSpace);
        CollapseKeepsWords(content, IsHtmlSpace);
        BlankIffStripped(content);
        BlankIffStripped(c);
        Some(Text(c, loc))
      else
        Some(node)
    case Comment(_, _) => if o.comments then Some(node) else None
    case _ => Some(node)
  }

  /** The slot before slot `j`, as the pass left it. */
  function Before(slots: seq<Option<Node>>, j: nat): Option<Node>
    requires j <= |slots|
  {
    if j == 0 then None else slots[j - 1]
  }

  /** The node after node `j`, as parsed. */
  function After(nodes: seq<Node>, j: nat): Option<Node> {
    if j + 1 < |nodes| then Some(nodes[j + 1]) else None
  }

  /** The first `k` slots after the pass has visited them, left to right. */
  function TidySlots(nodes: seq<Node>, inPre: bool, o: Options, k: nat): (r: seq<Option<Node>>)
    requires k <= |nodes|
    ensures |r| == k
    ensures forall j :: 0 <= j < k && r[j].Some? ==> SameShape(r[j].value, nodes[j])
  {
    if k == 0 then []
    else
      var s := TidySlots(nodes, inPre, o, k - 1);
      s + [Tidy(nodes[k - 1], Before(s, k - 1), After(nodes, k - 1), inPre, o)]
  }

  /** The pass never revisits a slot: a shorter run is a prefix of a longer one. */
  lemma {:induction false} TidySlotsPrefix(nodes: seq<Node>, inPre: bool, o: Options, j: nat, k: nat)
    requires j <= k <= |nodes|
    ensures TidySlots(nodes, inPre, o, k)[..j] == TidySlots(nodes, inPre, o, j)
    decreases k
  {
    if j < k {
      TidySlotsPrefix(nodes, inPre, o, j, k - 1);
      var s := TidySlots(nodes, inPre, o, k - 1);
      assert TidySlots(nodes, inPre, o, k)[..k - 1] == s;
      assert TidySlots(nodes, inPre, o, k)[..j] == s[..j];
    }
  }

  /** Each slot is decided from the slot before it, as the pass left it, and the node after it, as parsed. */
  lemma TidySlotAt(nodes: seq<Node>, inPre: bool, o: Options, j: nat)
    requires j < |nodes|
    ensures var r := TidySlots(nodes, inPre, o, |nodes|);
      r[j] == Tidy(nodes[j], Before(r, j), After(nodes, j), inPre, o)
  {
    var r := TidySlots(nodes, inPre, o, |nodes|);
    TidySlotsPrefix(nodes, inPre, o, j + 1, |nodes|);
    var s := TidySlots(nodes, inPre, o, j + 1);
    assert r[j] == s[j];
    TidySlotsPrefix(nodes, inPre, o, j, j + 1);
    if j > 0 {
      assert Before(r, j) == r[j - 1] == s[j - 1] == Before(TidySlots(nodes, inPre, o, j), j);
    }
  }

  /** `first.content.replace(/^\r?\n/, '')` on the first slot, when it holds a text and `strip` is set. */
  function StripFirst(slots: seq<Option<Node>>, strip: bool): (r: seq<Option<Node>>)
    ensures |r| == |slots| && (slots != [] ==> r[1..] == slots[1..])
  {
    if strip && slots != [] && slots[0].Some? && slots[0].value.Text? then
      [Some(slots[0].value.(content := StripLeadingNewline(slots[0].value.content)))] + slots[1..]
    else slots
  }

  /** `nodes.filter(Boolean)`: the nodes left in the slots, in order. */
  function Present(slots: seq<Option<Node>>): (r: seq<Node>)
    ensures |r| <= |slots|
    ensures forall n <- r :: Some(n) in slots
    ensures forall j :: 0 <= j < |slots| && slots[j].Some? ==> slots[j].value in r
  {
    if slots == [] then []
    else
      var rest := Present(slots[1..]);
      assert forall j :: 1 <= j < |slots| ==> slots[j] == slots[1..][j - 1];
      (if slots[0].Some? then [slots[0].value] else []) + rest
  }

  /** Slots the pass may leave: each empty, or a node of the kind and at the location of the node parsed there. */
  predicate Reshaped(slots: seq<Option<Node>>, nodes: seq<Node>) {
    |slots| == |nodes| && forall j :: 0 <= j < |nodes| && slots[j].Some? ==> SameShape(slots[j].value, nodes[j])
  }

  /** The first node left in the slots sits in the first slot that is not empty. */
  lemma {:induction false} PresentFirst(slots: seq<Option<Node>>)
    requires Present(slots) != []
    ensures exists j :: 0 <= j < |slots| && slots[j] == Some(Present(slots)[0]) && forall i :: 0 <= i < j ==> slots[i].None?
  {
    if slots[0].None? {
      PresentFirst(slots[1..]);
      var j :| 0 <= j < |slots| - 1 && slots[1..][j] == Some(Present(slots[1..])[0])
        && forall i :: 0 <= i < j ==> slots[1..][i].None?;
      assert slots[j + 1] == Some(Present(slots)[0]);
      forall i | 0 <= i < j + 1 ensures slots[i].None? {
        if i > 0 {
          assert slots[i] == slots[1..][i - 1];
        }
      }
    }
  }

  /**
   * Emptying slots and changing text contents keeps a well-formed list well
   * formed: what is left is still in order, and no two texts left side by
   * side are mergeable, since a removed node sat between them.
   */
  lemma {:induction false} PresentOk(slots: seq<Option<Node>>, nodes: seq<Node>, orig: string, a: int, b: int)
    requires Reshaped(slots, nodes) && NodesOk(nodes, orig, a, b)
    ensures NodesOk(Present(slots), orig, a, b)
    ensures Present(slots) != [] ==>
      SameShape(Present(slots)[0], nodes[0]) || nodes[0].loc.end.offset <= Present(slots)[0].loc.start.offset
    decreases |slots|
  {
    if slots != [] {
      var rest := Present(slots[1..]);
      var e0 := nodes[0].loc.end.offset;
      TailOk(slots, nodes, orig, a, b);
      PresentOk(slots[1..], nodes[1..], orig, e0, b);
      if slots[0].Some? {
        assert Present(slots) == [slots[0].value] + rest;
        PrependOk(slots[0].value, rest, nodes, orig, a, b);
      } else {
        assert Present(slots) == rest;
        assert nodes[0] in nodes;
        NodesOkWeaken(rest, orig, e0, b, a, b);
        if rest != [] {
          assert nodes[1] in nodes;
        }
      }
    }
  }

  /** What follows the first slot is reshaped from what follows the first node, and lies after it. */
  lemma TailOk(slots: seq<Option<Node>>, nodes: seq<Node>, orig: string, a: int, b: int)
    requires Reshaped(slots, nodes) && NodesOk(nodes, orig, a, b) && nodes != []
    ensures Reshaped(slots[1..], nodes[1..])
    ensures NodesOk(nodes[1..], orig, nodes[0].loc.end.offset, b)
  {
    forall j | 0 <= j < |nodes| - 1 ensures slots[1..][j] == slots[j + 1] && nodes[1..][j] == nodes[j + 1] { }
    NodesOkTail(nodes, orig, a, b);
  }

  /** What follows the first node of a well-formed list is well formed and lies after it. */
  lemma NodesOkTail(nodes: seq<Node>, orig: string, a: int, b: int)
    requires NodesOk(nodes, orig, a, b) && nodes != []
    ensures NodesOk(nodes[1..], orig, nodes[0].loc.end.offset, b)
  {
    var t, e0 := nodes[1..], nodes[0].loc.end.offset;
    forall n | n in t ensures WellFormed(n, orig) && e0 <= n.loc.start.offset && n.loc.end.offset <= b {
      var k :| 0 <= k < |t| && t[k] == n;
      assert n == nodes[k + 1] && nodes[k + 1] in nodes;
    }
    forall i, j | 0 <= i < j < |t| ensures t[i].loc.end.offset <= t[j].loc.start.offset {
      assert t[i] == nodes[i + 1] && t[j] == nodes[j + 1];
    }
    forall i | 0 <= i < |t| - 1 ensures !Mergeable(t[i], t[i + 1]) {
      assert t[i] == nodes[i + 1] && t[i + 1] == nodes[i + 2];
    }
  }

  /** A node shaped like the first node, put before what is left of the rest, keeps the list well formed. */
  lemma PrependOk(m: Node, rest: seq<Node>, nodes: seq<Node>, orig: string, a: int, b: int)
    requires NodesOk(nodes, orig, a, b) && nodes != [] && SameShape(m, nodes[0])
    requires NodesOk(rest, orig, nodes[0].loc.end.offset, b) && |rest| < |nodes|
    requires rest != [] ==> SameShape(rest[0], nodes[1]) || nodes[1].loc.end.offset <= rest[0].loc.start.offset
    ensures NodesOk([m] + rest, orig, a, b)
  {
    var r := [m] + rest;
    assert nodes[0] in nodes;
    assert WellFormed(m, orig);
    PrependOrdered(m, rest);
    if rest != [] {
      assert nodes[1] in nodes;
      assert !Mergeable(nodes[0], nodes[1]);
    }
    PrependNoMergeable(m, rest);
    forall n | n in r ensures WellFormed(n, orig) && a <= n.loc.start.offset && n.loc.end.offset <= b {
      if n != m {
        assert n in rest;
      }
    }
  }

  /** A node that ends before every node of an ordered list starts, put in front, keeps it ordered. */
  lemma PrependOrdered(m: Node, rest: seq<Node>)
    requires Ordered(rest) && forall n <- rest :: m.loc.end.offset <= n.loc.start.offset
    ensures Ordered([m] + rest)
  {
    var r := [m] + rest;
    forall i, j | 0 <= i < j < |r| ensures r[i].loc.end.offset <= r[j].loc.start.offset {
      if i > 0 {
        assert r[i] == rest[i - 1] && r[j] == rest[j - 1];
      } else {
        assert r[j] in rest;
      }
    }
  }

  /** A node that cannot merge with the first node of a list, put in front, leaves no neighbours to merge. */
  lemma PrependNoMergeable(m: Node, rest: seq<Node>)
    requires NoMergeable(rest) && (rest != [] ==> !Mergeable(m, rest[0]))
    ensures NoMergeable([m] + rest)
  {
    var r := [m] + rest;
    forall i | 0 <= i < |r| - 1 ensures !Mergeable(r[i], r[i + 1]) {
      if i > 0 {
        assert r[i] == rest[i - 1] && r[i + 1] == rest[i];
      }
    }
  }

  /** The list the whitespace pass returns, with the leading newline of a `<pre>` dropped when `stripPre` is set. */
  function Tidied(nodes: seq<Node>, inPre: bool, stripPre: bool, o: Options): seq<Node> {
    Present(StripFirst(TidySlots(nodes, inPre, o, |nodes|), stripPre))
  }

  /**
   * The whitespace pass of `parseChildren`, skipped in RAWTEXT and RCDATA
   * modes. It visits the slots left to right, so the node before a slot is
   * read as the pass already left it and the node after it as parsed; the
   * `<pre>` newline strip runs on the first slot afterwards.
   */
  method CondenseWhitespace(nodes: seq<Node>, mode: TextMode, inPre: bool, parent: Option<ElementNode>, o: Options)
    returns (r: seq<Node>)
    ensures mode.RawText? || mode.RcData? ==> r == nodes
    ensures !mode.RawText? && !mode.RcData? ==>
      r == Tidied(nodes, inPre, inPre && parent.Some? && o.isPreTag(parent.value.tag), o)
  {
    if mode.RawText? || mode.RcData? {
      return nodes;
    }
    var slots := TidyAll(nodes, inPre, o);
    if inPre && parent.Some? && o.isPreTag(parent.value.tag) {
      if |slots| > 0 && slots[0].Some? && slots[0].value.Text? {
        slots := slots[0 := Some(slots[0].value.(content := StripLeadingNewline(slots[0].value.content)))];
      }
    }
    r := Present(slots);
  }

  /** The loop of the pass, over every slot left to right. */
  method TidyAll(nodes: seq<Node>, inPre: bool, o: Options) returns (slots: seq<Option<Node>>)
    ensures slots == TidySlots(nodes, inPre, o, |nodes|)
  {
    slots := seq(|nodes|, i requires 0 <= i < |nodes| => Some(nodes[i]));
    for i := 0 to |nodes|
      invariant |slots| == |nodes|
      invariant slots[..i] == TidySlots(nodes, inPre, o, i)
      invariant forall j :: i <= j < |nodes| ==> slots[j] == Some(nodes[j])
    {
      var prev := if i > 0 then slots[i - 1] else None;
      var next := if i + 1 < |nodes| then slots[i + 1] else None;
      assert prev == Before(slots[..i], i) && next == After(nodes, i);
      var slot := TidyNode(nodes[i], prev, next, inPre, o);
      TidySlotsStep(nodes, inPre, o, i, slots, slot);
      slots := slots[i := slot];
    }
    assert slots == slots[..|nodes|];
  }

  /** Storing the pass's verdict on node `i` extends the slots visited so far by one. */
  lemma TidySlotsStep(nodes: seq<Node>, inPre: bool, o: Options, i: nat, slots: seq<Option<Node>>, slot: Option<Node>)
    requires i < |nodes| == |slots| && slots[..i] == TidySlots(nodes, inPre, o, i)
    requires slot == Tidy(nodes[i], Before(slots[..i], i), After(nodes, i), inPre, o)
    ensures slots[i := slot][..i + 1] == TidySlots(nodes, inPre, o, i + 1)
  {
    assert slots[i := slot][..i + 1] == slots[..i] + [slot];
  }

  /** One turn of the pass: what becomes of `node`, given the slot before it and the node after it. */
  method TidyNode(node: Node, prev: Option<Node>, next: Option<Node>, inPre: bool, o: Options) returns (slot: Option<Node>)
    ensures slot == Tidy(node, prev, next, inPre, o)
  {
    var condense := !o.whitespace.Preserve?;
    slot := Some(node);
    if node.Text? {
      if !inPre {
        if AllHtmlSpace(node.content) {
          if || prev.None?
             || next.None?
             || (condense &&
                 ((prev.value.Comment? && next.value.Comment?) ||
                  (prev.value.Comment? && next.value.Element?) ||
                  (prev.value.Element? && next.value.Comment?) ||
                  (prev.value.Element? && next.value.Element? && HasLineBreak(node.content))))
          {
            slot := None;
          } else {
            slot := Some(node.(content := " "));
          }
        } else if condense {
          slot := Some(node.(content := CollapseRuns(node.content, IsHtmlSpace)));
        }
      } else {
        slot := Some(node.(content := ReplaceCrlf(node.content)));
      }
    } else if node.Comment? && !o.comments {
      slot := None;
    }
  }

  /** The whitespace pass keeps a well-formed list well formed and within the same bounds. */
  lemma TidiedOk(nodes: seq<Node>, inPre: bool, stripPre: bool, o: Options, orig: string, a: int, b: int)
    requires NodesOk(nodes, orig, a, b)
    ensures NodesOk(Tidied(nodes, inPre, stripPre, o), orig, a, b)
  {
    var s := TidySlots(nodes, inPre, o, |nodes|);
    var t := StripFirst(s, stripPre);
    assert Reshaped(t, nodes) by {
      forall j | 0 <= j < |nodes| && t[j].Some? ensures SameShape(t[j].value, nodes[j]) {
        if j > 0 {
          assert t[j] == t[1..][j - 1] == s[1..][j - 1] == s[j];
        }
      }
    }
    PresentOk(t, nodes, orig, a, b);
  }

  /** The slot a node ends up in, after the `<pre>` strip, when it is not the first slot or not a text. */
  lemma SlotAfterStrip(nodes: seq<Node>, inPre: bool, stripPre: bool, o: Options, j: nat)
    requires j < |nodes|
    ensures var s := TidySlots(nodes, inPre, o, |nodes|);
      var t := StripFirst(s, stripPre);
      (j > 0 || !stripPre || s[0].None? || !s[0].value.Text?) ==> t[j] == s[j]
  {
    var s := TidySlots(nodes, inPre, o, |nodes|);
    if j > 0 {
      assert StripFirst(s, stripPre)[j] == StripFirst(s, stripPre)[1..][j - 1] == s[1..][j - 1];
    }
  }

  /** Comments survive the pass exactly when the options keep comments. */
  lemma TidiedComments(nodes: seq<Node>, inPre: bool, stripPre: bool, o: Options)
    ensures !o.comments ==> forall n <- Tidied(nodes, inPre, stripPre, o) :: !n.Comment?
    ensures o.comments ==> forall n <- nodes :: n.Comment? ==> n in Tidied(nodes, inPre, stripPre, o)
  {
    var s := TidySlots(nodes, inPre, o, |nodes|);
    var t := StripFirst(s, stripPre);
    if !o.comments {
      forall n | n in Present(t) ensures !n.Comment? {
        var j :| 0 <= j < |t| && t[j] == Some(n);
        SlotAfterStrip(nodes, inPre, stripPre, o, j);
        if t[j] == s[j] {
          TidySlotAt(nodes, inPre, o, j);
        }
      }
    } else {
      forall n | n in nodes && n.Comment? ensures n in Present(t) {
        var j :| 0 <= j < |nodes| && nodes[j] == n;
        TidySlotAt(nodes, inPre, o, j);
        SlotAfterStrip(nodes, inPre, stripPre, o, j);
        assert t[j] == Some(n);
      }
    }
  }

  /**
   * Outside `<pre>` every text the pass leaves is a single space (what is
   * left of whitespace) or has other characters; when condensing, no two
   * whitespace characters stand side by side.
   */
  lemma TidiedTexts(nodes: seq<Node>, inPre: bool, stripPre: bool, o: Options)
    requires !inPre && (stripPre ==> inPre)
    ensures forall n <- Tidied(nodes, inPre, stripPre, o) :: n.Text? ==>
      || n.content == " "
      || (!AllHtmlSpace(n.content) && (!o.whitespace.Preserve? ==> NoAdjacent(n.content, IsHtmlSpace)))
  {
    var s := TidySlots(nodes, inPre, o, |nodes|);
    assert StripFirst(s, stripPre) == s;
    forall n | n in Present(s) && n.Text?
      ensures n.content == " " || (!AllHtmlSpace(n.content) && (!o.whitespace.Preserve? ==> NoAdjacent(n.content, IsHtmlSpace)))
    {
      var j :| 0 <= j < |s| && s[j] == Some(n);
      TidySlotAt(nodes, inPre, o, j);
    }
  }

  /** Outside `<pre>` the list the pass leaves never starts with whitespace. */
  lemma TidiedStartsWithContent(nodes: seq<Node>, inPre: bool, stripPre: bool, o: Options)
    requires !inPre && (stripPre ==> inPre)
    ensures var r := Tidied(nodes, inPre, stripPre, o);
      r != [] ==> !(r[0].Text? && AllHtmlSpace(r[0].content))
  {
    var s := TidySlots(nodes, inPre, o, |nodes|);
    assert StripFirst(s, stripPre) == s;
    var r := Present(s);
    if r != [] {
      PresentFirst(s);
      var j :| 0 <= j < |s| && s[j] == Some(r[0]) && forall i :: 0 <= i < j ==> s[i].None?;
      TidySlotAt(nodes, inPre, o, j);
      assert Before(s, j).None?;
    }
  }

  /** Outside `<pre>` a whitespace-only text at the end of the list is dropped. */
  lemma TidyDropsTrailingBlank(nodes: seq<Node>, inPre: bool, o: Options)
    requires !inPre && nodes != []
    requires nodes[|nodes| - 1].Text? && AllHtmlSpace(nodes[|nodes| - 1].content)
    ensures TidySlots(nodes, inPre, o, |nodes|)[|nodes| - 1].None?
  {
    TidySlotAt(nodes, inPre, o, |nodes| - 1);
  }

  /** The pass never invents a node: what it leaves is a node of the list or a text. */
  lemma TidiedKinds(nodes: seq<Node>, inPre: bool, stripPre: bool, o: Options)
    ensures forall n <- Tidied(nodes, inPre, stripPre, o) :: n in nodes || n.Text?
  {
    var s := TidySlots(nodes, inPre, o, |nodes|);
    var t := StripFirst(s, stripPre);
    forall n | n in Present(t) ensures n in nodes || n.Text? {
      var j :| 0 <= j < |t| && t[j] == Some(n);
      SlotAfterStrip(nodes, inPre, stripPre, o, j);
      if t[j] == s[j] {
        assert SameShape(n, nodes[j]);
      }
    }
  }
}
