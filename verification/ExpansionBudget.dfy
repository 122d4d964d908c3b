/** What a rebuild costs: the nodes it creates, counted against the budget. */
module ExpansionBudget {
  import opened Wrappers
  import opened DomTree
  import opened Taffy
  import opened Window
  import opened Expansion
  import opened ExpansionSafety

  /** The nodes of a row: its container and a copy of the template. */
  function RowCost(each: Each): (cost: nat)
    ensures cost > 0
  {
    SizeAll(each.node.children) + 1
  }

  /** The row nodes recorded for a block, and the children of its container that are not rows. */
  ghost function RowNodes(groups: map<NodeId, seq<Group>>, each: Each): nat {
    if each.node.id in groups then |groups[each.node.id]| * RowCost(each) else 0
  }

  ghost function SpacerNodes(doc: Document, nodes: Nodes, groups: map<NodeId, seq<Group>>, each: Each): int {
    if each.node.id in groups && each.node.id in doc.mapping && doc.mapping[each.node.id] in nodes
    then |nodes[doc.mapping[each.node.id]].children| - |groups[each.node.id]| else 0
  }

  ghost function AllRowNodes(groups: map<NodeId, seq<Group>>, blocks: seq<Each>): nat {
    if blocks == [] then 0 else AllRowNodes(groups, blocks[..|blocks| - 1]) + RowNodes(groups, blocks[|blocks| - 1])
  }

  ghost function AllSpacerNodes(doc: Document, nodes: Nodes, groups: map<NodeId, seq<Group>>, blocks: seq<Each>): int {
    if blocks == [] then 0 else
    AllSpacerNodes(doc, nodes, groups, blocks[..|blocks| - 1]) + SpacerNodes(doc, nodes, groups, blocks[|blocks| - 1])
  }

  /** The blocks recorded are those of a list that were not skipped. */
  ghost predicate RecordsExactly(doc: Document, frame: Frame, blocks: seq<Each>, e: EachExpansion) {
    && e.groups.Keys == e.originalChildren.Keys == e.windowStart.Keys && e.truncated.Keys <= e.groups.Keys
    && (forall b <- e.groups :: exists i :: 0 <= i < |blocks| && blocks[i].node.id == b)
    && (forall i | 0 <= i < |blocks| :: blocks[i].node.id in e.groups <==> !Skipped(doc, frame, blocks[i]))
  }

  /** Every node created is a row node or one of at most two spacers a block; rows are paid from the budget. */
  ghost predicate Accounted(settings: Settings, doc: Document, from: TaffyId, blocks: seq<Each>, p: Progress) {
    var rows, spacers := AllRowNodes(p.expansion.groups, blocks),
        AllSpacerNodes(doc, p.nodes, p.expansion.groups, blocks);
    p.budget + rows == settings.maxNodes && p.next == from + rows + spacers && 0 <= spacers <= 2 * |blocks|
  }

  ghost predicate DistinctBlocks(blocks: seq<Each>) {
    forall i, j | 0 <= i < j < |blocks| :: blocks[i].node.id != blocks[j].node.id
  }

  lemma {:induction false} RowNodesStay(
    groups: map<NodeId, seq<Group>>, groups': map<NodeId, seq<Group>>, blocks: seq<Each>)
    requires forall i | 0 <= i < |blocks| :: RowNodes(groups', blocks[i]) == RowNodes(groups, blocks[i])
    ensures AllRowNodes(groups', blocks) == AllRowNodes(groups, blocks)
  {
    if blocks != [] {
      RowNodesStay(groups, groups', blocks[..|blocks| - 1]);
    }
  }

  lemma {:induction false} SpacerNodesStay(
    doc: Document, nodes: Nodes, nodes': Nodes, groups: map<NodeId, seq<Group>>, groups': map<NodeId, seq<Group>>,
    blocks: seq<Each>)
    requires forall i | 0 <= i < |blocks| ::
      SpacerNodes(doc, nodes', groups', blocks[i]) == SpacerNodes(doc, nodes, groups, blocks[i])
    ensures AllSpacerNodes(doc, nodes', groups', blocks) == AllSpacerNodes(doc, nodes, groups, blocks)
  {
    if blocks != [] {
      SpacerNodesStay(doc, nodes, nodes', groups, groups', blocks[..|blocks| - 1]);
    }
  }

  lemma {:induction false} RowsCost(s: Copying, template: seq<Node>, looks: Looks, k: nat)
    ensures AddRows(s, template, looks, k).next == s.next + k * (SizeAll(template) + 1)
  {
    if k > 0 {
      var size := SizeAll(template) + 1;
      RowsCost(s, template, looks, k - 1);
      assert (k - 1) * size + size == k * size;
    }
  }

  /** What one block adds. */
  lemma BlockCost(doc: Document, each: Each, plan: Plan, p: Progress)
    requires each.node.id in doc.mapping && doc.mapping[each.node.id] in p.nodes && plan.Last() <= plan.n
    ensures var q := Expanded(doc, each, plan, p);
            && q.expansion.groups.Keys == p.expansion.groups.Keys + {each.node.id}
            && |q.expansion.groups[each.node.id]| == plan.visible
            && doc.mapping[each.node.id] in q.nodes
            && 0 <= SpacerNodes(doc, q.nodes, q.expansion.groups, each) <= 2
            && q.next == p.next + plan.visible * RowCost(each) + SpacerNodes(doc, q.nodes, q.expansion.groups, each)
  {
    var s, looks, c := Copying(p.nodes, p.next, map[], p.expansion.synthetic), LooksIn(doc.mapping, p.nodes),
        doc.mapping[each.node.id];
    var rows := AddRows(s, each.node.children, looks, plan.visible);
    var groups := Groups(s, each.node.children, looks, plan.visible);
    var above := AddSpacer(rows, plan.first, plan.rowHeight);
    RowsCost(s, each.node.children, looks, plan.visible);
    assert Expanded(doc, each, plan, p).nodes[c].children == RowsAndSpacers(plan, groups, rows.next, above.next);
  }

  /** What one block leaves alone. */
  lemma BlockLeaves(doc: Document, each: Each, plan: Plan, p: Progress, t: TaffyId)
    requires each.node.id in doc.mapping && doc.mapping[each.node.id] in p.nodes
    requires t in p.nodes && t < p.next && t != doc.mapping[each.node.id]
    ensures var q := Expanded(doc, each, plan, p); t in q.nodes && q.nodes[t] == p.nodes[t]
  {
    var s, looks := Copying(p.nodes, p.next, map[], p.expansion.synthetic), LooksIn(doc.mapping, p.nodes);
    BlockGrows(s, each.node.children, looks, plan);
  }

  lemma ExpandedIsAccounted(
    base: Nodes, settings: Settings, doc: Document, from: TaffyId, init: seq<Each>, each: Each, plan: Plan,
    p: Progress)
    requires Built(base, doc) && Holds(base, from, p.nodes, p.next, p.expansion.synthetic) &&
      DistinctBlocks(init + [each])
    requires each.node.id in doc.mapping && plan.Last() <= plan.n && plan.visible * RowCost(each) <= p.budget
    requires Accounted(settings, doc, from, init, p)
    ensures Accounted(settings, doc, from, init + [each], Expanded(doc, each, plan, p))
  {
    var q, blocks := Expanded(doc, each, plan, p), init + [each];
    BlockCost(doc, each, plan, p);
    forall i | 0 <= i < |init|
      ensures RowNodes(q.expansion.groups, init[i]) == RowNodes(p.expansion.groups, init[i])
      ensures SpacerNodes(doc, q.nodes, q.expansion.groups, init[i]) ==
        SpacerNodes(doc, p.nodes, p.expansion.groups, init[i])
    {
      assert blocks[i] == init[i] && blocks[|init|] == each;
      if init[i].node.id in doc.mapping {
        BlockLeaves(doc, each, plan, p, doc.mapping[init[i].node.id]);
      }
    }
    RowNodesStay(p.expansion.groups, q.expansion.groups, init);
    SpacerNodesStay(doc, p.nodes, q.nodes, p.expansion.groups, q.expansion.groups, init);
    assert blocks[..|blocks| - 1] == init;
  }

  lemma SkippedIsAccounted(settings: Settings, doc: Document, from: TaffyId, init: seq<Each>, each: Each, p: Progress)
    requires each.node.id !in p.expansion.groups && Accounted(settings, doc, from, init, p)
    ensures Accounted(settings, doc, from, init + [each], p)
  {
    var blocks := init + [each];
    assert blocks[..|blocks| - 1] == init;
  }

  lemma RecordsOneMore(doc: Document, frame: Frame, init: seq<Each>, each: Each, p: Progress, q: Progress)
    requires DistinctBlocks(init + [each]) && RecordsExactly(doc, frame, init, p.expansion)
    requires if Skipped(doc, frame, each) then q == p else
      exists plan, groups, synthetic :: q.expansion == Recorded(p.expansion, doc, each, plan, groups, synthetic)
    ensures RecordsExactly(doc, frame, init + [each], q.expansion)
    ensures each.node.id !in p.expansion.groups
  {
    var blocks := init + [each];
    assert forall i | 0 <= i < |init| :: blocks[i] == init[i];
    assert blocks[|init|] == each;
    assert each.node.id !in p.expansion.groups;
    forall b <- q.expansion.groups ensures exists i :: 0 <= i < |blocks| && blocks[i].node.id == b {
      if b in p.expansion.groups {
        var i :| 0 <= i < |init| && init[i].node.id == b;
        assert blocks[i].node.id == b;
      } else {
        assert blocks[|init|].node.id == b;
      }
    }
  }

  /** The arena before a rebuild's first block. */
  ghost predicate Fresh(base: Nodes, settings: Settings, doc: Document, p: Progress) {
    Inv(base, doc, p.next, p) && p.expansion == NO_EXPANSION && p.budget == settings.maxNodes
  }

  lemma {:induction false} BlocksAreAccounted(
    base: Nodes, settings: Settings, doc: Document, frame: Frame, blocks: seq<Each>, p: Progress)
    requires Built(base, doc) && Fresh(base, settings, doc, p)
    requires DistinctBlocks(blocks) && forall e <- blocks :: e in doc.blocks
    ensures var q := ExpandAll(settings, doc, frame, blocks, p);
      Accounted(settings, doc, p.next, blocks, q) && RecordsExactly(doc, frame, blocks, q.expansion)
  {
    if blocks != [] {
      var init, each := blocks[..|blocks| - 1], blocks[|blocks| - 1];
      assert blocks == init + [each];
      var m := ExpandAll(settings, doc, frame, init, p);
      BlocksAreAccounted(base, settings, doc, frame, init, p);
      ExpandAllKeepsInv(base, settings, doc, p.next, frame, init, p);
      OneMoreIsAccounted(base, settings, doc, p.next, frame, init, each, m);
    }
  }

  lemma OneMoreIsAccounted(
    base: Nodes, settings: Settings, doc: Document, from: TaffyId, frame: Frame, init: seq<Each>, each: Each,
    p: Progress)
    requires Built(base, doc) && Inv(base, doc, from, p) && DistinctBlocks(init + [each])
    requires Accounted(settings, doc, from, init, p) && RecordsExactly(doc, frame, init, p.expansion)
    ensures var q := ExpandOne(settings, doc, frame, each, p);
      Accounted(settings, doc, from, init + [each], q) && RecordsExactly(doc, frame, init + [each], q.expansion)
  {
    var q := ExpandOne(settings, doc, frame, each, p);
    if Skipped(doc, frame, each) {
      RecordsOneMore(doc, frame, init, each, p, q);
      SkippedIsAccounted(settings, doc, from, init, each, p);
    } else {
      var plan := PlanOf(settings, frame, each, frame.store[each.list].length, p.budget);
      PlanFits(settings, frame, each, frame.store[each.list].length, p.budget);
      ExpandedIsAccounted(base, settings, doc, from, init, each, plan, p);
      assert q.expansion == Recorded(p.expansion, doc, each, plan, q.expansion.groups[each.node.id],
          q.expansion.synthetic);
      RecordsOneMore(doc, frame, init, each, p, q);
    }
  }

  lemma PlanFits(settings: Settings, frame: Frame, each: Each, n: nat, budget: nat)
    ensures var plan := PlanOf(settings, frame, each, n, budget);
      plan.Last() <= plan.n == n && plan.visible * RowCost(each) <= budget
  {
    var view := View(frame.scrollY, frame.height, Lookup(frame.offsets, each.node.id),
        Lookup(frame.rowHeights, each.node.id));
    WindowIsExact(settings, view, n, SizeAll(each.node.children) + 1, budget);
  }

  /**
   * After any frames at all, the arena is the base nodes and the recorded synthetic nodes, all
   * distinct; they number the rows' nodes, never above the budget, and at most two spacers a block.
   */
  lemma ArenaIsConserved(base: Nodes, settings: Settings, doc: Document, frames: seq<Frame>, p: Progress)
    requires Built(base, doc) && Initial(base, p) && frames != []
    ensures var q := Run(settings, doc, frames, p); var e := q.expansion;
            && (forall t :: t in q.nodes <==> t in base || t in e.synthetic)
            && (forall t <- e.synthetic :: t !in base)
            && (forall i, j | 0 <= i < j < |e.synthetic| :: e.synthetic[i] != e.synthetic[j])
            && |q.nodes| == |base| + |e.synthetic|
            && |e.synthetic| == AllRowNodes(e.groups, doc.blocks) + AllSpacerNodes(doc, q.nodes, e.groups, doc.blocks)
            && AllRowNodes(e.groups, doc.blocks) <= settings.maxNodes
            && 0 <= AllSpacerNodes(doc, q.nodes, e.groups, doc.blocks) <= 2 * |doc.blocks|
  {
    var init, frame := frames[..|frames| - 1], frames[|frames| - 1];
    var from := EveryRunKeepsInv(base, settings, doc, init, p);
    var m := Run(settings, doc, init, p);
    var torn := Progress(TornDown(doc.mapping, m.nodes, m.expansion), m.next, NO_EXPANSION, settings.maxNodes);
    TearDownRestores(base, doc, from, m);
    RestoredIsInv(base, doc, torn.nodes, m.next, settings.maxNodes);
    BlocksAreAccounted(base, settings, doc, frame, doc.blocks, torn);
    RebuildKeepsInv(base, settings, doc, from, frame, m);
    CountsAdd(base, m.next, Run(settings, doc, frames, p));
  }

  lemma CountsAdd(base: Nodes, from: TaffyId, p: Progress)
    requires Holds(base, from, p.nodes, p.next, p.expansion.synthetic)
    ensures |p.nodes| == |base| + |p.expansion.synthetic|
  {
    var added := p.expansion.synthetic;
    RangeCounts(from, p.next);
    assert p.nodes.Keys == base.Keys + Elements(added);
    assert base.Keys !! Elements(added);
  }

  ghost function Elements(ids: seq<TaffyId>): set<TaffyId> {
    set t | t in ids
  }

  lemma {:induction false} RangeCounts(a: TaffyId, b: TaffyId)
    requires a <= b
    ensures |Elements(Range(a, b))| == b - a
    decreases b - a
  {
    if a < b {
      RangeCounts(a, b - 1);
      assert Elements(Range(a, b)) == Elements(Range(a, b - 1)) + {b - 1};
    }
  }
}
