/** The layout arena, and the copies of a template's subtrees made in it. */
module Taffy {
  import opened Wrappers
  import opened DomTree

  /** Identities are handed out in order and never again. */
  type TaffyId = nat

  datatype Display = Flex | Grid | Block | Hidden
  datatype Direction = Row | Column | RowReverse | ColumnReverse
  datatype Dimension = Auto | Length(px: real) | Percent(share: real)

  /** The style properties that expansion does not touch. */
  type Traits(==, !new)

  /** `traits` is None where they all have their defaults. */
  datatype Style = Style(display: Display, direction: Direction, shrink: real, width: Dimension, height: Dimension,
      traits: Option<Traits>)

  const DEFAULT_STYLE := Style(Flex, Direction.Row, 1.0, Auto, Auto, None)

  /** A layout node; its context names the document node to measure. */
  datatype TaffyNode = TaffyNode(style: Style, context: Option<NodeId>, children: seq<TaffyId>)

  type Nodes = map<TaffyId, TaffyNode>

  /** A list without an element. */
  function Without(ids: seq<TaffyId>, id: TaffyId): (r: seq<TaffyId>)
    ensures id !in r
    ensures id !in ids ==> r == ids
  {
    if ids == [] then [] else
    var init := Without(ids[..|ids| - 1], id);
    if ids[|ids| - 1] == id then init else init + [ids[|ids| - 1]]
  }

  class TaffyTree {
    var nodes: Nodes
    var next: TaffyId

    ghost predicate Valid()
      reads this
    {
      forall t <- nodes :: t < next
    }

    constructor ()
      ensures Valid() && nodes == map[] && next == 0
    {
      nodes := map[];
      next := 0;
    }

    /** A new node, with children that already exist. */
    method Add(node: TaffyNode) returns (id: TaffyId)
      requires Valid() && forall c <- node.children :: c in nodes
      modifies this
      ensures Valid() && id == old(next) && next == id + 1
      ensures nodes == old(nodes)[id := node]
    {
      id := next;
      nodes := nodes[id := node];
      next := next + 1;
    }

    method SetChildren(id: TaffyId, children: seq<TaffyId>)
      requires Valid() && id in nodes && forall c <- children :: c in nodes
      modifies this
      ensures Valid() && next == old(next)
      ensures nodes == old(nodes)[id := old(nodes)[id].(children := children)]
    {
      nodes := nodes[id := nodes[id].(children := children)];
    }

    method SetStyle(id: TaffyId, style: Style)
      requires Valid() && id in nodes
      modifies this
      ensures Valid() && next == old(next)
      ensures nodes == old(nodes)[id := old(nodes)[id].(style := style)]
    {
      nodes := nodes[id := nodes[id].(style := style)];
    }

    /** Removes a node and every mention of it as a child. */
    method Remove(id: TaffyId)
      requires Valid() && id in nodes
      modifies this
      ensures Valid() && next == old(next)
      ensures nodes.Keys == old(nodes).Keys - {id}
      ensures forall t <- nodes :: nodes[t] == old(nodes)[t].(children := Without(old(nodes)[t].children, id))
    {
      nodes := map t | t in nodes && t != id :: nodes[t].(children := Without(nodes[t].children, id));
    }
  }

  /** The identities from a up to b. */
  function Range(a: TaffyId, b: TaffyId): (r: seq<TaffyId>)
    requires a <= b
    ensures |r| == b - a && forall i | 0 <= i < |r| :: r[i] == a + i
    ensures forall t :: t in r <==> a <= t < b
  {
    if a == b then [] else Range(a, b - 1) + [b - 1]
  }

  lemma RangesJoin(a: TaffyId, b: TaffyId, c: TaffyId)
    requires a <= b <= c
    ensures Range(a, b) + Range(b, c) == Range(a, c)
  {
  }

  // ---- Copies ----

  /** Where each document node is laid out. */
  type Mapping = map<NodeId, TaffyId>

  /** The styles the document's nodes have in an arena. */
  type Looks = map<NodeId, Style>

  function LooksIn(mapping: Mapping, nodes: Nodes): Looks {
    map d | d in mapping && mapping[d] in nodes :: nodes[mapping[d]].style
  }

  function StyleOf(looks: Looks, id: NodeId): Style {
    if id in looks then looks[id] else DEFAULT_STYLE
  }

  /** The number of nodes of a subtree. */
  function Size(node: Node): nat
    decreases node, 1
  {
    1 + SizeAll(node.children)
  }

  function SizeAll(nodes: seq<Node>): nat
    decreases nodes, 0
  {
    if nodes == [] then 0 else SizeAll(nodes[..|nodes| - 1]) + Size(nodes[|nodes| - 1])
  }

  method CountDomSubtreeSize(root: Node) returns (count: nat)
    ensures count == Size(root)
    decreases root
  {
    count := 1;
    for c := 0 to |root.children|
      invariant count == 1 + SizeAll(root.children[..c])
    {
      var size := CountDomSubtreeSize(root.children[c]);
      count := count + size;
      assert root.children[..c + 1][..c] == root.children[..c];
    }
    assert root.children[..|root.children|] == root.children;
  }

  /** The arena while copies are made, and the record kept of them. */
  datatype Copying = Copying(nodes: Nodes, next: TaffyId, overrides: Mapping, synthetic: seq<TaffyId>)

  function AddCopy(s: Copying, node: Node, style: Style, children: seq<TaffyId>): Copying {
    var context := if children == [] then Some(node.id) else None;
    Copying(s.nodes[s.next := TaffyNode(style, context, children)], s.next + 1, s.overrides[node.id := s.next],
        s.synthetic + [s.next])
  }

  /** A subtree copied, children before their parent. */
  function Copy(s: Copying, node: Node, looks: Looks): (r: Copying)
    ensures r.next == s.next + Size(node)
    decreases node, 1
  {
    AddCopy(CopyAll(s, node.children, looks), node, StyleOf(looks, node.id), Roots(node.children, s.next))
  }

  function CopyAll(s: Copying, nodes: seq<Node>, looks: Looks): (r: Copying)
    ensures r.next == s.next + SizeAll(nodes)
    decreases nodes, 0
  {
    if nodes == [] then s else
    Copy(CopyAll(s, nodes[..|nodes| - 1], looks), nodes[|nodes| - 1], looks)
  }

  /** The roots of the copies made from `start` on. */
  function Roots(nodes: seq<Node>, start: TaffyId): (r: seq<TaffyId>)
    ensures |r| == |nodes|
  {
    if nodes == [] then [] else
    var init, last := nodes[..|nodes| - 1], nodes[|nodes| - 1];
    Roots(init, start) + [start + SizeAll(init) + SizeAll(last.children)]
  }

  // ---- What a copy is ----

  /** Nothing but nodes from s.next to r.next is new, and nothing is lost. */
  ghost predicate Grows(s: Copying, r: Copying) {
    && s.next <= r.next
    && (forall t :: t in r.nodes <==> t in s.nodes || s.next <= t < r.next)
    && (forall t <- s.nodes | t < s.next :: r.nodes[t] == s.nodes[t])
    && r.synthetic == s.synthetic + Range(s.next, r.next)
  }

  lemma GrowthJoins(s: Copying, m: Copying, r: Copying)
    requires Grows(s, m) && Grows(m, r)
    ensures Grows(s, r)
  {
    RangesJoin(s.next, m.next, r.next);
    assert r.synthetic == s.synthetic + (Range(s.next, m.next) + Range(m.next, r.next));
  }

  lemma {:induction false} CopyGrows(s: Copying, node: Node, looks: Looks)
    ensures Grows(s, Copy(s, node, looks))
    decreases node, 1
  {
    CopyAllGrows(s, node.children, looks);
    var m := CopyAll(s, node.children, looks);
    GrowthJoins(s, m, AddCopy(m, node, StyleOf(looks, node.id), Roots(node.children, s.next)));
  }

  lemma {:induction false} CopyAllGrows(s: Copying, nodes: seq<Node>, looks: Looks)
    ensures Grows(s, CopyAll(s, nodes, looks))
    decreases nodes, 0
  {
    if nodes != [] {
      var m := CopyAll(s, nodes[..|nodes| - 1], looks);
      CopyAllGrows(s, nodes[..|nodes| - 1], looks);
      CopyGrows(m, nodes[|nodes| - 1], looks);
      GrowthJoins(s, m, CopyAll(s, nodes, looks));
    }
  }

  /**
   * The node `id` of the arena, numbered `from` or later, is the top of a copy of a subtree: the same
   * styles and the same shape, leaves naming what to measure, and overrides leading to each copy.
   */
  ghost predicate Mirrors(nodes: Nodes, from: TaffyId, id: TaffyId, node: Node, looks: Looks, overrides: Mapping)
    decreases node, 1
  {
    && from <= id && id in nodes
    && nodes[id].style == StyleOf(looks, node.id)
    && nodes[id].context == (if node.children == [] then Some(node.id) else None)
    && node.id in overrides && overrides[node.id] == id
    && AllMirror(nodes, from, nodes[id].children, node.children, looks, overrides)
  }

  ghost predicate AllMirror(
    nodes: Nodes, from: TaffyId, ids: seq<TaffyId>, originals: seq<Node>, looks: Looks, overrides: Mapping)
    decreases originals, 0
  {
    |ids| == |originals| && forall c | 0 <= c < |ids| :: Mirrors(nodes, from, ids[c], originals[c], looks, overrides)
  }

  /** A mirror stays one while the arena changes elsewhere and overrides are added for other nodes. */
  lemma {:induction false} MirrorStays(
    nodes: Nodes, nodes': Nodes, from: TaffyId, from': TaffyId, id: TaffyId, node: Node, looks: Looks,
    overrides: Mapping, overrides': Mapping)
    requires from' <= from && Mirrors(nodes, from, id, node, looks, overrides)
    requires forall t <- nodes | from <= t :: t in nodes' && nodes'[t] == nodes[t]
    requires forall d <- Ids(node) | d in overrides :: d in overrides' && overrides'[d] == overrides[d]
    ensures Mirrors(nodes', from', id, node, looks, overrides')
    decreases node, 1
  {
    forall d | d in AllIds(node.children) ensures d in Ids(node) {}
    AllMirrorStay(nodes, nodes', from, from', nodes[id].children, node.children, looks, overrides, overrides');
  }

  lemma {:induction false} AllMirrorStay(
    nodes: Nodes, nodes': Nodes, from: TaffyId, from': TaffyId, ids: seq<TaffyId>, originals: seq<Node>, looks: Looks,
    overrides: Mapping, overrides': Mapping)
    requires from' <= from && AllMirror(nodes, from, ids, originals, looks, overrides)
    requires forall t <- nodes | from <= t :: t in nodes' && nodes'[t] == nodes[t]
    requires forall d <- AllIds(originals) | d in overrides :: d in overrides' && overrides'[d] == overrides[d]
    ensures AllMirror(nodes', from', ids, originals, looks, overrides')
    decreases originals, 0
  {
    forall c | 0 <= c < |ids| ensures Mirrors(nodes', from', ids[c], originals[c], looks, overrides') {
      MirrorStays(nodes, nodes', from, from', ids[c], originals[c], looks, overrides, overrides');
    }
  }

  lemma OneMoreMirrors(
    nodes: Nodes, from: TaffyId, ids: seq<TaffyId>, originals: seq<Node>, id: TaffyId, node: Node, looks: Looks,
    overrides: Mapping)
    requires AllMirror(nodes, from, ids, originals, looks, overrides) &&
      Mirrors(nodes, from, id, node, looks, overrides)
    ensures AllMirror(nodes, from, ids + [id], originals + [node], looks, overrides)
  {
  }

  /** The copying of a subtree overrides its own nodes and no others. */
  lemma {:induction false} CopyOverrides(s: Copying, node: Node, looks: Looks)
    ensures Copy(s, node, looks).overrides.Keys == s.overrides.Keys + Ids(node)
    ensures forall d <- s.overrides | d !in Ids(node) :: Copy(s, node, looks).overrides[d] == s.overrides[d]
    decreases node, 1
  {
    CopyAllOverrides(s, node.children, looks);
  }

  ghost function AllIds(nodes: seq<Node>): set<NodeId> {
    set c, d | 0 <= c < |nodes| && d in Ids(nodes[c]) :: d
  }

  lemma AllIdsSplit(nodes: seq<Node>)
    requires nodes != []
    ensures AllIds(nodes) == AllIds(nodes[..|nodes| - 1]) + Ids(nodes[|nodes| - 1])
  {
    var init := nodes[..|nodes| - 1];
    forall d | d in AllIds(nodes) ensures d in AllIds(init) + Ids(nodes[|nodes| - 1]) {
      var c :| 0 <= c < |nodes| && d in Ids(nodes[c]);
      assert c < |init| ==> init[c] == nodes[c];
    }
  }

  lemma {:induction false} CopyAllOverrides(s: Copying, nodes: seq<Node>, looks: Looks)
    ensures CopyAll(s, nodes, looks).overrides.Keys == s.overrides.Keys + AllIds(nodes)
    ensures forall d <- s.overrides | d !in AllIds(nodes) :: CopyAll(s, nodes, looks).overrides[d] == s.overrides[d]
    decreases nodes, 0
  {
    if nodes != [] {
      var init, last := nodes[..|nodes| - 1], nodes[|nodes| - 1];
      CopyAllOverrides(s, init, looks);
      CopyOverrides(CopyAll(s, init, looks), last, looks);
      AllIdsSplit(nodes);
    }
  }

  ghost predicate AllUnique(nodes: seq<Node>) {
    && (forall c | 0 <= c < |nodes| :: UniqueIds(nodes[c]))
    && (forall c, d | 0 <= c < d < |nodes| :: Ids(nodes[c]) !! Ids(nodes[d]))
  }

  lemma UniqueSplit(nodes: seq<Node>)
    requires nodes != [] && AllUnique(nodes)
    ensures var init, last := nodes[..|nodes| - 1], nodes[|nodes| - 1];
            AllUnique(init) && UniqueIds(last) && AllIds(init) !! Ids(last)
  {
    var init := nodes[..|nodes| - 1];
    assert forall c | 0 <= c < |init| :: init[c] == nodes[c];
  }

  lemma OtherOverridesStay(m: Copying, others: seq<Node>, node: Node, looks: Looks)
    requires AllIds(others) !! Ids(node)
    ensures var r := Copy(m, node, looks);
      forall d <- AllIds(others) | d in m.overrides :: d in r.overrides && r.overrides[d] == m.overrides[d]
  {
    CopyOverrides(m, node, looks);
  }

  /** A copy has the template's shape, styles and measured leaves. */
  lemma {:induction false} CopyMirrors(s: Copying, node: Node, looks: Looks)
    requires UniqueIds(node) && Below(s)
    ensures CopyMirrored(s, node, looks)
    decreases node, 1
  {
    CopyAllMirrors(s, node.children, looks);
    CopyAllGrows(s, node.children, looks);
    ParentMirrors(CopyAll(s, node.children, looks), s.next, Roots(node.children, s.next), node, looks);
  }

  lemma ParentMirrors(m: Copying, start: TaffyId, roots: seq<TaffyId>, node: Node, looks: Looks)
    requires node.id !in AllIds(node.children) && start <= m.next && forall t <- m.nodes :: t < m.next
    requires AllMirror(m.nodes, start, roots, node.children, looks, m.overrides)
    ensures var r := AddCopy(m, node, StyleOf(looks, node.id), roots);
            Mirrors(r.nodes, start, m.next, node, looks, r.overrides)
  {
    var r := AddCopy(m, node, StyleOf(looks, node.id), roots);
    AllMirrorStay(m.nodes, r.nodes, start, start, roots, node.children, looks, m.overrides, r.overrides);
  }

  lemma {:induction false} CopyAllMirrors(s: Copying, nodes: seq<Node>, looks: Looks)
    requires AllUnique(nodes) && Below(s)
    ensures CopiesMirror(s, nodes, looks)
    decreases nodes, 0
  {
    if nodes != [] {
      var init, last := nodes[..|nodes| - 1], nodes[|nodes| - 1];
      UniqueSplit(nodes);
      CopyAllMirrors(s, init, looks);
      CopyAllStaysBelow(s, init, looks);
      CopyMirrors(CopyAll(s, init, looks), last, looks);
      NextMirrors(s, init, last, looks);
      assert nodes == init + [last];
    }
  }

  ghost predicate CopyMirrored(s: Copying, node: Node, looks: Looks) {
    TopMirrors(Copy(s, node, looks), s.next, node, looks)
  }

  ghost predicate TopMirrors(r: Copying, from: TaffyId, node: Node, looks: Looks) {
    r.next > 0 && Mirrors(r.nodes, from, r.next - 1, node, looks, r.overrides)
  }

  ghost predicate CopiesMirror(s: Copying, nodes: seq<Node>, looks: Looks) {
    RootsMirror(CopyAll(s, nodes, looks), s.next, Roots(nodes, s.next), nodes, looks)
  }

  ghost predicate RootsMirror(r: Copying, from: TaffyId, roots: seq<TaffyId>, nodes: seq<Node>, looks: Looks) {
    AllMirror(r.nodes, from, roots, nodes, looks, r.overrides)
  }

  ghost predicate Below(s: Copying) {
    forall t <- s.nodes :: t < s.next
  }

  lemma CopyAllStaysBelow(s: Copying, nodes: seq<Node>, looks: Looks)
    requires Below(s)
    ensures Below(CopyAll(s, nodes, looks))
  {
    CopyAllGrows(s, nodes, looks);
  }

  lemma CopyOneMore(s: Copying, init: seq<Node>, last: Node, looks: Looks)
    ensures CopyAll(s, init + [last], looks) == Copy(CopyAll(s, init, looks), last, looks)
    ensures Roots(init + [last], s.next) == Roots(init, s.next) + [CopyAll(s, init + [last], looks).next - 1]
  {
    var nodes := init + [last];
    assert nodes[..|nodes| - 1] == init;
  }

  lemma NextMirrors(s: Copying, init: seq<Node>, last: Node, looks: Looks)
    requires Below(s) && AllIds(init) !! Ids(last)
    requires CopiesMirror(s, init, looks) && CopyMirrored(CopyAll(s, init, looks), last, looks)
    ensures CopiesMirror(s, init + [last], looks)
  {
    var m, r := CopyAll(s, init, looks), CopyAll(s, init + [last], looks);
    CopyOneMore(s, init, last, looks);
    CopyAllStaysBelow(s, init, looks);
    OtherOverridesStay(m, init, last, looks);
    CopyGrows(m, last, looks);
    JoinMirrors(m, r, s.next, Roots(init, s.next), Roots(init + [last], s.next), init, last, looks);
  }

  lemma JoinMirrors(
    m: Copying, r: Copying, start: TaffyId, roots: seq<TaffyId>, roots': seq<TaffyId>, init: seq<Node>, last: Node,
    looks: Looks)
    requires start <= m.next < r.next && Below(m) && Grows(m, r) && roots' == roots + [r.next - 1]
    requires forall d <- AllIds(init) | d in m.overrides :: d in r.overrides && r.overrides[d] == m.overrides[d]
    requires RootsMirror(m, start, roots, init, looks) && TopMirrors(r, m.next, last, looks)
    ensures RootsMirror(r, start, roots', init + [last], looks)
  {
    AllMirrorStay(m.nodes, r.nodes, start, start, roots, init, looks, m.overrides, r.overrides);
    MirrorStays(r.nodes, r.nodes, m.next, start, r.next - 1, last, looks, r.overrides, r.overrides);
    OneMoreMirrors(r.nodes, start, roots, init, r.next - 1, last, looks, r.overrides);
  }

  // ---- Which copy stands for which node ----

  /** The overrides of some nodes lead to each identity from lo up to hi exactly once. */
  ghost predicate Bijects(overrides: Mapping, ids: set<NodeId>, lo: TaffyId, hi: TaffyId) {
    && ids <= overrides.Keys
    && (forall d <- ids :: lo <= overrides[d] < hi)
    && (forall d, e | d in ids && e in ids && d != e :: overrides[d] != overrides[e])
    && (forall t | lo <= t < hi :: Overridden(overrides, ids, t))
  }

  ghost predicate Overridden(overrides: Mapping, ids: set<NodeId>, t: TaffyId) {
    exists d :: d in ids && d in overrides && overrides[d] == t
  }

  lemma BijectionsJoin(
    before: Mapping, overrides: Mapping, ids: set<NodeId>, more: set<NodeId>, lo: TaffyId, mid: TaffyId, hi: TaffyId)
    requires lo <= mid <= hi
    requires Bijects(before, ids, lo, mid) && Bijects(overrides, more, mid, hi)
    requires forall d <- ids :: d in overrides && overrides[d] == before[d]
    ensures Bijects(overrides, ids + more, lo, hi)
  {
    forall t | lo <= t < hi ensures Overridden(overrides, ids + more, t) {
      if t < mid {
        assert Overridden(before, ids, t);
      } else {
        assert Overridden(overrides, more, t);
      }
    }
  }

  /** The override map of a copy is one to one between the template's nodes and the new ones. */
  lemma {:induction false} CopyBijects(s: Copying, node: Node, looks: Looks)
    requires UniqueIds(node)
    ensures var r := Copy(s, node, looks); Bijects(r.overrides, Ids(node), s.next, r.next)
    decreases node, 1
  {
    var m, r := CopyAll(s, node.children, looks), Copy(s, node, looks);
    CopyAllBijects(s, node.children, looks);
    assert Overridden(r.overrides, {node.id}, m.next);
    BijectionsJoin(m.overrides, r.overrides, AllIds(node.children), {node.id}, s.next, m.next, r.next);
    assert AllIds(node.children) + {node.id} == Ids(node);
  }

  lemma {:induction false} CopyAllBijects(s: Copying, nodes: seq<Node>, looks: Looks)
    requires AllUnique(nodes)
    ensures var r := CopyAll(s, nodes, looks); Bijects(r.overrides, AllIds(nodes), s.next, r.next)
    decreases nodes, 0
  {
    if nodes != [] {
      var init, last := nodes[..|nodes| - 1], nodes[|nodes| - 1];
      var m := CopyAll(s, init, looks);
      UniqueSplit(nodes);
      AllIdsSplit(nodes);
      CopyAllBijects(s, init, looks);
      CopyBijects(m, last, looks);
      OtherOverridesStay(m, init, last, looks);
      BijectionsJoin(m.overrides, Copy(m, last, looks).overrides, AllIds(init), Ids(last), s.next, m.next,
          Copy(m, last, looks).next);
    }
  }

  // ---- The copying method ----

  /** Fresh nodes change no document node's style. */
  lemma LooksStay(mapping: Mapping, s: Copying, r: Copying)
    requires (forall d <- mapping :: mapping[d] < s.next) && Grows(s, r)
    ensures LooksIn(mapping, r.nodes) == LooksIn(mapping, s.nodes)
  {
  }

  lemma LooksStayWhileCopying(mapping: Mapping, s: Copying, nodes: seq<Node>, looks: Looks)
    requires forall d <- mapping :: mapping[d] < s.next
    ensures LooksIn(mapping, CopyAll(s, nodes, looks).nodes) == LooksIn(mapping, s.nodes)
  {
    CopyAllGrows(s, nodes, looks);
    LooksStay(mapping, s, CopyAll(s, nodes, looks));
  }

  lemma CopyPrefix(s: Copying, nodes: seq<Node>, c: nat, looks: Looks)
    requires c < |nodes|
    ensures CopyAll(s, nodes[..c + 1], looks) == Copy(CopyAll(s, nodes[..c], looks), nodes[c], looks)
    ensures Roots(nodes[..c + 1], s.next) == Roots(nodes[..c], s.next) + [CopyAll(s, nodes[..c + 1], looks).next - 1]
  {
    assert nodes[..c + 1] == nodes[..c] + [nodes[c]];
    CopyOneMore(s, nodes[..c], nodes[c], looks);
  }

  lemma RootsAreCopies(s: Copying, nodes: seq<Node>, looks: Looks)
    ensures forall c <- Roots(nodes, s.next) :: c in CopyAll(s, nodes, looks).nodes
  {
    CopyAllGrows(s, nodes, looks);
    RootsLieWithin(nodes, s.next);
  }

  lemma {:induction false} RootsLieWithin(nodes: seq<Node>, start: TaffyId)
    ensures forall c <- Roots(nodes, start) :: start <= c < start + SizeAll(nodes)
    decreases nodes
  {
    if nodes != [] {
      RootsLieWithin(nodes[..|nodes| - 1], start);
    }
  }

  /** Copies a template subtree into the arena, noting which copy stands for which node. */
  method CloneSubtree(node: Node, tree: TaffyTree, mapping: Mapping, overrides: Mapping, synthetic: seq<TaffyId>)
    returns (id: TaffyId, overrides': Mapping, synthetic': seq<TaffyId>)
    requires tree.Valid() && forall d <- mapping :: mapping[d] < tree.next
    modifies tree
    ensures tree.Valid() && tree.next == id + 1
    ensures Copying(tree.nodes, tree.next, overrides', synthetic') ==
            Copy(Copying(old(tree.nodes), old(tree.next), overrides, synthetic), node,
                LooksIn(mapping, old(tree.nodes)))
    decreases node, 2
  {
    ghost var s, looks := Copying(tree.nodes, tree.next, overrides, synthetic), LooksIn(mapping, tree.nodes);
    var style := if node.id in mapping && mapping[node.id] in tree.nodes
      then tree.nodes[mapping[node.id]].style else DEFAULT_STYLE;
    assert style == StyleOf(looks, node.id);
    var roots;
    roots, overrides', synthetic' := CloneSubtrees(node.children, tree, mapping, overrides, synthetic);
    RootsAreCopies(s, node.children, looks);
    ghost var m := Copying(tree.nodes, tree.next, overrides', synthetic');
    var copy := TaffyNode(style, if roots == [] then Some(node.id) else None, roots);
    id := tree.Add(copy);
    synthetic' := synthetic' + [id];
    overrides' := overrides'[node.id := id];
    ParentCopied(s, node, looks, m, copy, Copying(tree.nodes, tree.next, overrides', synthetic'));
  }

  /** The parent, copied after its children. */
  lemma ParentCopied(s: Copying, node: Node, looks: Looks, m: Copying, copy: TaffyNode, r: Copying)
    requires m == CopyAll(s, node.children, looks) && copy.style == StyleOf(looks, node.id)
    requires copy.children == Roots(node.children, s.next)
    requires copy.context == if copy.children == [] then Some(node.id) else None
    requires r.nodes == m.nodes[m.next := copy] && r.next == m.next + 1
    requires r.overrides == m.overrides[node.id := m.next] && r.synthetic == m.synthetic + [m.next]
    ensures r == Copy(s, node, looks)
  {
  }

  /** The loop over sibling subtrees. */
  method CloneSubtrees(nodes: seq<Node>, tree: TaffyTree, mapping: Mapping, overrides: Mapping, synthetic: seq<TaffyId>)
    returns (roots: seq<TaffyId>, overrides': Mapping, synthetic': seq<TaffyId>)
    requires tree.Valid() && forall d <- mapping :: mapping[d] < tree.next
    modifies tree
    ensures tree.Valid() && roots == Roots(nodes, old(tree.next))
    ensures Copying(tree.nodes, tree.next, overrides', synthetic') ==
            CopyAll(Copying(old(tree.nodes), old(tree.next), overrides, synthetic), nodes,
                LooksIn(mapping, old(tree.nodes)))
    decreases nodes, 1
  {
    ghost var s, looks := Copying(tree.nodes, tree.next, overrides, synthetic), LooksIn(mapping, tree.nodes);
    roots, overrides', synthetic' := [], overrides, synthetic;
    NothingCopied(s, nodes, looks);
    for c := 0 to |nodes|
      invariant tree.Valid()
      invariant Copied(s, nodes, c, looks, Copying(tree.nodes, tree.next, overrides', synthetic'), roots)
    {
      roots, overrides', synthetic' := CloneNext(nodes[c], tree, mapping, roots, overrides', synthetic', nodes, c, s,
          looks);
    }
    AllCopied(s, nodes, looks, Copying(tree.nodes, tree.next, overrides', synthetic'), roots);
  }

  /** One turn of that loop. */
  method CloneNext(node: Node, tree: TaffyTree, mapping: Mapping, roots: seq<TaffyId>, overrides: Mapping,
                   synthetic: seq<TaffyId>, ghost nodes: seq<Node>, ghost c: nat, ghost s: Copying, ghost looks: Looks)
    returns (roots': seq<TaffyId>, overrides': Mapping, synthetic': seq<TaffyId>)
    requires tree.Valid() && looks == LooksIn(mapping, s.nodes) && forall d <- mapping :: mapping[d] < s.next
    requires c < |nodes| && nodes[c] == node &&
      Copied(s, nodes, c, looks, Copying(tree.nodes, tree.next, overrides, synthetic), roots)
    modifies tree
    ensures tree.Valid()
    ensures Copied(s, nodes, c + 1, looks, Copying(tree.nodes, tree.next, overrides', synthetic'), roots')
    decreases node, 3
  {
    ghost var m := Copying(tree.nodes, tree.next, overrides, synthetic);
    StylesStay(mapping, s, nodes, c, looks, m, roots);
    var root;
    root, overrides', synthetic' := CloneSubtree(node, tree, mapping, overrides, synthetic);
    roots' := roots + [root];
    OneMoreCopied(s, nodes, c, looks, m, roots, Copying(tree.nodes, tree.next, overrides', synthetic'), roots');
  }

  /** The first c of some subtrees have been copied. */
  ghost predicate Copied(s: Copying, nodes: seq<Node>, c: nat, looks: Looks, m: Copying, roots: seq<TaffyId>) {
    c <= |nodes| && m == CopyAll(s, nodes[..c], looks) && roots == Roots(nodes[..c], s.next)
  }

  lemma NothingCopied(s: Copying, nodes: seq<Node>, looks: Looks)
    ensures Copied(s, nodes, 0, looks, s, [])
  {
  }

  lemma StylesStay(
    mapping: Mapping, s: Copying, nodes: seq<Node>, c: nat, looks: Looks, m: Copying, roots: seq<TaffyId>)
    requires Copied(s, nodes, c, looks, m, roots) && forall d <- mapping :: mapping[d] < s.next
    requires looks == LooksIn(mapping, s.nodes)
    ensures LooksIn(mapping, m.nodes) == looks && s.next <= m.next
  {
    LooksStayWhileCopying(mapping, s, nodes[..c], looks);
  }

  lemma OneMoreCopied(
    s: Copying, nodes: seq<Node>, c: nat, looks: Looks, m: Copying, roots: seq<TaffyId>, r: Copying,
        roots': seq<TaffyId>)
    requires Copied(s, nodes, c, looks, m, roots) && c < |nodes|
    requires r == Copy(m, nodes[c], looks) && r.next > 0 && roots' == roots + [r.next - 1]
    ensures Copied(s, nodes, c + 1, looks, r, roots')
  {
    CopyPrefix(s, nodes, c, looks);
  }

  lemma AllCopied(s: Copying, nodes: seq<Node>, looks: Looks, m: Copying, roots: seq<TaffyId>)
    requires Copied(s, nodes, |nodes|, looks, m, roots)
    ensures m == CopyAll(s, nodes, looks) && roots == Roots(nodes, s.next)
  {
    assert nodes[..|nodes|] == nodes;
  }
}
