/** The code that rebuilds the expansion in the arena. */
module Expander {
  import opened Wrappers
  import opened DomTree
  import opened Taffy
  import opened Window
  import opened Expansion
  import opened ExpansionSafety
  import opened ExpansionBudget

  /** Copies the template once and puts it under a row container. */
  method BuildRow(
    tree: TaffyTree, mapping: Mapping, template: seq<Node>, synthetic: seq<TaffyId>, ghost earlier: Mapping)
    returns (group: Group, synthetic': seq<TaffyId>)
    requires tree.Valid() && forall d <- mapping :: mapping[d] < tree.next
    modifies tree
    ensures tree.Valid() && tree.next == group.row + 1
    ensures Copying(tree.nodes, tree.next, group.overrides, synthetic') ==
            AddRow(Copying(old(tree.nodes), old(tree.next), earlier, synthetic), template,
                LooksIn(mapping, old(tree.nodes)))
  {
    ghost var looks, s := LooksIn(mapping, tree.nodes), Copying(tree.nodes, tree.next, map[], synthetic);
    var roots, overrides;
    roots, overrides, synthetic' := CloneSubtrees(template, tree, mapping, map[], synthetic);
    RootsAreCopies(s, template, looks);
    var row := tree.Add(TaffyNode(ROW_STYLE, None, roots));
    synthetic' := synthetic' + [row];
    group := Group(row, overrides);
  }

  method BuildSpacer(tree: TaffyTree, rows: nat, rowHeight: real, synthetic: seq<TaffyId>, ghost earlier: Mapping)
    returns (spacer: seq<TaffyId>, synthetic': seq<TaffyId>)
    requires tree.Valid()
    modifies tree
    ensures tree.Valid() && spacer == if rows > 0 then [old(tree.next)] else []
    ensures Copying(tree.nodes, tree.next, earlier, synthetic') ==
            AddSpacer(Copying(old(tree.nodes), old(tree.next), earlier, synthetic), rows, rowHeight)
  {
    spacer, synthetic' := [], synthetic;
    if rows > 0 {
      var id := tree.Add(TaffyNode(SpacerStyle(rows as real * rowHeight), None, []));
      spacer, synthetic' := [id], synthetic + [id];
    }
  }

  method TemplateSize(template: seq<Node>) returns (size: nat)
    ensures size == SizeAll(template)
  {
    size := 0;
    for c := 0 to |template|
      invariant size == SizeAll(template[..c])
    {
      var count := CountDomSubtreeSize(template[c]);
      size := size + count;
      assert template[..c + 1][..c] == template[..c];
    }
    assert template[..|template|] == template;
  }

  lemma LooksStayWhileAdding(mapping: Mapping, s: Copying, template: seq<Node>, looks: Looks, k: nat)
    requires forall d <- mapping :: mapping[d] < s.next
    ensures LooksIn(mapping, AddRows(s, template, looks, k).nodes) == LooksIn(mapping, s.nodes)
  {
    RowsGrow(s, template, looks, k);
    LooksStay(mapping, s, AddRows(s, template, looks, k));
  }

  /** One row for each visible element. */
  method BuildRows(tree: TaffyTree, mapping: Mapping, template: seq<Node>, visible: nat, synthetic: seq<TaffyId>)
    returns (groups: seq<Group>, synthetic': seq<TaffyId>, ghost last: Mapping)
    requires tree.Valid() && forall d <- mapping :: mapping[d] < tree.next
    modifies tree
    ensures tree.Valid()
    ensures var s, looks := Copying(old(tree.nodes), old(tree.next), map[], synthetic),
      LooksIn(mapping, old(tree.nodes));
            && Copying(tree.nodes, tree.next, last, synthetic') == AddRows(s, template, looks, visible)
            && groups == Groups(s, template, looks, visible)
  {
    ghost var s, looks := Copying(tree.nodes, tree.next, map[], synthetic), LooksIn(mapping, tree.nodes);
    groups, synthetic', last := [], synthetic, map[];
    for k := 0 to visible
      invariant tree.Valid()
      invariant Copying(tree.nodes, tree.next, last, synthetic') == AddRows(s, template, looks, k)
      invariant groups == Groups(s, template, looks, k)
    {
      LooksStayWhileAdding(mapping, s, template, looks, k);
      var group;
      group, synthetic' := BuildRow(tree, mapping, template, synthetic', last);
      groups, last := groups + [group], group.overrides;
      assert Copying(tree.nodes, tree.next, last, synthetic') == AddRows(s, template, looks, k + 1);
    }
  }

  lemma {:induction false} RowsAreThere(s: Copying, template: seq<Node>, looks: Looks, k: nat)
    ensures forall i | 0 <= i < k :: Groups(s, template, looks, k)[i].row in AddRows(s, template, looks, k).nodes
  {
    if k > 0 {
      RowsAreThere(s, template, looks, k - 1);
      RowGrows(AddRows(s, template, looks, k - 1), template, looks);
    }
  }

  /** Builds a block's rows and spacers and puts them under its container, now a column. */
  method Furnish(
    tree: TaffyTree, mapping: Mapping, template: seq<Node>, plan: Plan, container: TaffyId, synthetic: seq<TaffyId>)
    returns (groups: seq<Group>, synthetic': seq<TaffyId>)
    requires tree.Valid() && (forall d <- mapping :: mapping[d] < tree.next) && container in tree.nodes &&
      plan.Last() <= plan.n
    modifies tree
    ensures tree.Valid()
    ensures var s, looks := Copying(old(tree.nodes), old(tree.next), map[], synthetic),
      LooksIn(mapping, old(tree.nodes));
            var filled := Filled(s, template, looks, plan);
            && groups == Groups(s, template, looks, plan.visible)
            && tree.next == filled.next && synthetic' == filled.synthetic
            && tree.nodes == filled.nodes[container := AsContainer(old(tree.nodes)[container],
                Furniture(s, template, looks, plan))]
  {
    ghost var before := tree.nodes;
    ghost var s, looks := Copying(tree.nodes, tree.next, map[], synthetic), LooksIn(mapping, tree.nodes);
    ghost var last;
    groups, synthetic', last := BuildRows(tree, mapping, template, plan.visible, synthetic);
    var top, bottom;
    top, synthetic' := BuildSpacer(tree, plan.first, plan.rowHeight, synthetic', last);
    bottom, synthetic' := BuildSpacer(tree, plan.n - plan.Last(), plan.rowHeight, synthetic', last);
    assert Copying(tree.nodes, tree.next, last, synthetic') == Filled(s, template, looks, plan);
    assert container in tree.nodes && tree.nodes[container] == before[container] by {
      BlockGrows(s, template, looks, plan);
    }
    var children := top + RowIds(groups) + bottom;
    assert children == Furniture(s, template, looks, plan);
    FurnitureIsThere(s, template, looks, plan);
    ghost var filled := tree.nodes;
    tree.SetChildren(container, children);
    tree.SetStyle(container, AsColumn(tree.nodes[container].style));
    MadeContainer(filled, container, children);
  }

  lemma FurnitureIsThere(s: Copying, template: seq<Node>, looks: Looks, plan: Plan)
    ensures forall c <- Furniture(s, template, looks, plan) :: c in Filled(s, template, looks, plan).nodes
  {
    var rows := AddRows(s, template, looks, plan.visible);
    var above := AddSpacer(rows, plan.first, plan.rowHeight);
    RowsAreThere(s, template, looks, plan.visible);
    assert rows.nodes.Keys <= above.nodes.Keys <= Filled(s, template, looks, plan).nodes.Keys;
  }

  lemma MadeContainer(nodes: Nodes, c: TaffyId, children: seq<TaffyId>)
    requires c in nodes
    ensures var given := nodes[c].(children := children);
      nodes[c := given][c := given.(style := AsColumn(given.style))] == nodes[c := AsContainer(nodes[c], children)]
  {
  }

  /** Expands one block, unless there is nothing to expand. */
  method ExpandEach(
    settings: Settings, doc: Document, frame: Frame, each: Each, tree: TaffyTree, expansion: EachExpansion,
    budget: nat)
    returns (expansion': EachExpansion, budget': nat)
    requires tree.Valid() && forall d <- doc.mapping :: doc.mapping[d] in tree.nodes
    modifies tree
    ensures tree.Valid()
    ensures Progress(tree.nodes, tree.next, expansion', budget') ==
            ExpandOne(settings, doc, frame, each, Progress(old(tree.nodes), old(tree.next), expansion, budget))
  {
    expansion', budget' := expansion, budget;
    var id, template := each.node.id, each.node.children;
    if each.list !in frame.store || !frame.store[each.list].List? || frame.store[each.list].length == 0 {
      return;
    }
    if id !in doc.mapping || template == [] {
      return;
    }
    var n := frame.store[each.list].length;
    var size := TemplateSize(template);
    var view := View(frame.scrollY, frame.height, Lookup(frame.offsets, id), Lookup(frame.rowHeights, id));
    var plan := PlanFor(settings, view, n, size + 1, budget);
    PlanFits(settings, frame, each, n, budget);
    expansion', budget' := ExpandByPlan(doc, each, plan, size + 1, tree, expansion, budget);
  }

  /** Builds what the plan says and records it. */
  method ExpandByPlan(
    doc: Document, each: Each, plan: Plan, budgetPerRow: nat, tree: TaffyTree, expansion: EachExpansion, budget: nat)
    returns (expansion': EachExpansion, budget': nat)
    requires tree.Valid() && each.node.id in doc.mapping && forall d <- doc.mapping :: doc.mapping[d] in tree.nodes
    requires plan.Last() <= plan.n && budgetPerRow == RowCost(each) && plan.visible * budgetPerRow <= budget
    modifies tree
    ensures tree.Valid()
    ensures Progress(tree.nodes, tree.next, expansion', budget') ==
            Expanded(doc, each, plan, Progress(old(tree.nodes), old(tree.next), expansion, budget))
  {
    ghost var p := Progress(tree.nodes, tree.next, expansion, budget);
    var id, template := each.node.id, each.node.children;
    budget' := budget - plan.visible * budgetPerRow;
    var groups, synthetic := Furnish(tree, doc.mapping, template, plan, doc.mapping[id], expansion.synthetic);
    expansion' := EachExpansion(
      expansion.groups[id := groups],
      expansion.originalChildren[id := TemplateIds(doc.mapping, template)],
      synthetic,
      if plan.visible < plan.wanted then expansion.truncated[id := plan.wanted - plan.visible] else expansion.truncated,
      expansion.windowStart[id := plan.first]);
    assert expansion' == Recorded(expansion, doc, each, plan, groups, synthetic);
    Assembled(doc, each, plan, p, Progress(tree.nodes, tree.next, expansion', budget'));
  }

  lemma Assembled(doc: Document, each: Each, plan: Plan, p: Progress, q: Progress)
    requires each.node.id in doc.mapping && doc.mapping[each.node.id] in p.nodes
    requires var s, looks, c := Copying(p.nodes, p.next, map[], p.expansion.synthetic), LooksIn(doc.mapping, p.nodes),
      doc.mapping[each.node.id];
             var filled := Filled(s, each.node.children, looks, plan);
             && q.nodes == filled.nodes[c := AsContainer(p.nodes[c], Furniture(s, each.node.children, looks, plan))]
             && q.next == filled.next
             && q.expansion == Recorded(p.expansion, doc, each, plan,
                 Groups(s, each.node.children, looks, plan.visible), filled.synthetic)
    requires q.budget == p.budget - plan.visible * RowCost(each)
    ensures q == Expanded(doc, each, plan, p)
  {
  }

  // ---- Teardown and rebuild ----

  /** Gives every block of the previous expansion its children back, in whatever order they come. */
  method RestoreChildren(mapping: Mapping, tree: TaffyTree, original: map<NodeId, seq<TaffyId>>)
    requires tree.Valid() && (forall d, e | d in mapping && e in mapping && d != e :: mapping[d] != mapping[e])
    requires forall b | b in original && b in mapping ::
      mapping[b] in tree.nodes && forall c <- original[b] :: c in tree.nodes
    modifies tree
    ensures tree.Valid() && tree.next == old(tree.next) && tree.nodes.Keys == old(tree.nodes).Keys
    ensures forall t <- tree.nodes :: tree.nodes[t] == Closed(old(tree.nodes)[t], t, mapping, original)
  {
    ghost var before := tree.nodes;
    var todo := original.Keys;
    while todo != {}
      invariant tree.Valid() && tree.next == old(tree.next) && tree.nodes.Keys == before.Keys && todo <= original.Keys
      invariant forall b | b in original && b !in todo && b in mapping ::
        tree.nodes[mapping[b]] == before[mapping[b]].(children := original[b])
      invariant forall t <- before :: tree.nodes[t] == before[t] || IsOpen(mapping, original - todo, t)
      decreases todo
    {
      var b :| b in todo;
      if b in mapping {
        tree.SetChildren(mapping[b], original[b]);
      }
      forall t <- before ensures tree.nodes[t] == before[t] || IsOpen(mapping, original - (todo - {b}), t) {
        if IsOpen(mapping, original - todo, t) {
          var other :| other in original - todo && other in mapping && mapping[other] == t;
          assert other in original - (todo - {b});
        } else if b in mapping && t == mapping[b] {
          assert b in original - (todo - {b});
        }
      }
      todo := todo - {b};
    }
  }

  /** Undoes the previous expansion. */
  method TearDown(doc: Document, tree: TaffyTree, prev: EachExpansion, ghost base: Nodes, ghost from: TaffyId)
    requires tree.Valid() && Built(base, doc) && Inv(base, doc, from, Progress(tree.nodes, tree.next, prev, 0))
    modifies tree
    ensures tree.Valid() && tree.next == old(tree.next)
    ensures tree.nodes == TornDown(doc.mapping, old(tree.nodes), prev)
  {
    ghost var before := tree.nodes;
    TearDownRestores(base, doc, from, Progress(tree.nodes, tree.next, prev, 0));
    RestoreChildren(doc.mapping, tree, prev.originalChildren);
    OnlyBaseIsLeft(base, doc, from, before, tree.nodes, prev);
    RemoveAll(tree, prev.synthetic);
  }

  lemma OnlyBaseIsLeft(base: Nodes, doc: Document, from: TaffyId, before: Nodes, nodes: Nodes, prev: EachExpansion)
    requires Built(base, doc) && Restored(base, doc, TornDown(doc.mapping, before, prev))
    requires Holds(base, from, before, from + |prev.synthetic|, prev.synthetic) && nodes.Keys == before.Keys
    requires forall t <- nodes :: nodes[t] == Closed(before[t], t, doc.mapping, prev.originalChildren)
    ensures forall t | t in nodes && t !in prev.synthetic :: forall c <- nodes[t].children :: c !in prev.synthetic
  {
    forall t | t in nodes && t !in prev.synthetic ensures forall c <- nodes[t].children :: c !in prev.synthetic {
      assert t in base && nodes[t] == TornDown(doc.mapping, before, prev)[t];
      assert NodeKept(base[t], nodes[t], IsContainer(doc, t), false);
      assert nodes[t].children == base[t].children;
      forall c <- base[t].children ensures c !in prev.synthetic {
        assert c in base;
      }
    }
  }

  /** Removes nodes that no node outside them has for a child. */
  method RemoveAll(tree: TaffyTree, ids: seq<TaffyId>)
    requires tree.Valid() && (forall t <- ids :: t in tree.nodes)
    requires forall i, j | 0 <= i < j < |ids| :: ids[i] != ids[j]
    requires forall t | t in tree.nodes && t !in ids :: forall c <- tree.nodes[t].children :: c !in ids
    modifies tree
    ensures tree.Valid() && tree.next == old(tree.next)
    ensures forall t :: t in tree.nodes <==> t in old(tree.nodes) && t !in ids
    ensures forall t <- tree.nodes :: tree.nodes[t] == old(tree.nodes)[t]
  {
    for k := 0 to |ids|
      invariant tree.Valid() && tree.next == old(tree.next)
      invariant tree.nodes.Keys <= old(tree.nodes).Keys
      invariant forall j | 0 <= j < |ids| :: ids[j] in tree.nodes <==> k <= j
      invariant forall t | t in old(tree.nodes) && t !in ids :: t in tree.nodes && tree.nodes[t] == old(tree.nodes)[t]
    {
      tree.Remove(ids[k]);
    }
  }

  /** A full rebuild: tear the previous expansion down, then expand every block. */
  method ExpandEachNodes(
    settings: Settings, doc: Document, frame: Frame, tree: TaffyTree, prev: EachExpansion, ghost base: Nodes,
    ghost from: TaffyId, ghost left: nat)
    returns (expansion: EachExpansion, ghost left': nat)
    requires tree.Valid() && Built(base, doc) && Inv(base, doc, from, Progress(tree.nodes, tree.next, prev, left))
    modifies tree
    ensures tree.Valid()
    ensures Progress(tree.nodes, tree.next, expansion, left') ==
            Rebuilt(settings, doc, frame, Progress(old(tree.nodes), old(tree.next), prev, left))
  {
    TearDownRestores(base, doc, from, Progress(tree.nodes, tree.next, prev, left));
    TearDown(doc, tree, prev, base, from);
    RestoredIsInv(base, doc, tree.nodes, tree.next, settings.maxNodes);
    expansion, left' := ExpandBlocks(settings, doc, frame, tree, base);
  }

  method ExpandBlocks(settings: Settings, doc: Document, frame: Frame, tree: TaffyTree, ghost base: Nodes)
    returns (expansion: EachExpansion, budget: nat)
    requires tree.Valid() && Built(base, doc)
    requires Inv(base, doc, tree.next, Progress(tree.nodes, tree.next, NO_EXPANSION, settings.maxNodes))
    modifies tree
    ensures tree.Valid()
    ensures Progress(tree.nodes, tree.next, expansion, budget) ==
            ExpandAll(settings, doc, frame, doc.blocks,
                Progress(old(tree.nodes), old(tree.next), NO_EXPANSION, settings.maxNodes))
  {
    ghost var torn := Progress(tree.nodes, tree.next, NO_EXPANSION, settings.maxNodes);
    expansion, budget := NO_EXPANSION, settings.maxNodes;
    for i := 0 to |doc.blocks|
      invariant tree.Valid()
      invariant Progress(tree.nodes, tree.next, expansion, budget) ==
        ExpandAll(settings, doc, frame, doc.blocks[..i], torn)
    {
      MappedNodesStay(base, settings, doc, frame, i, torn);
      assert doc.blocks[..i + 1][..i] == doc.blocks[..i];
      expansion, budget := ExpandEach(settings, doc, frame, doc.blocks[i], tree, expansion, budget);
    }
    assert doc.blocks[..|doc.blocks|] == doc.blocks;
  }

  lemma MappedNodesStay(base: Nodes, settings: Settings, doc: Document, frame: Frame, i: nat, p: Progress)
    requires Built(base, doc) && Inv(base, doc, p.next, p) && i <= |doc.blocks|
    ensures forall d <- doc.mapping :: doc.mapping[d] in ExpandAll(settings, doc, frame, doc.blocks[..i], p).nodes
  {
    ExpandAllKeepsInv(base, settings, doc, p.next, frame, doc.blocks[..i], p);
  }

  /** Frame after frame on one arena. */
  method ExpandFrames(settings: Settings, doc: Document, frames: seq<Frame>, tree: TaffyTree)
    returns (expansion: EachExpansion, ghost left: nat)
    requires tree.Valid() && Built(tree.nodes, doc)
    modifies tree
    ensures tree.Valid()
    ensures Progress(tree.nodes, tree.next, expansion, left) ==
            Run(settings, doc, frames, Progress(old(tree.nodes), old(tree.next), NO_EXPANSION, 0))
  {
    ghost var base, start := tree.nodes, Progress(tree.nodes, tree.next, NO_EXPANSION, 0);
    expansion, left := NO_EXPANSION, 0;
    for i := 0 to |frames|
      invariant tree.Valid()
      invariant Progress(tree.nodes, tree.next, expansion, left) == Run(settings, doc, frames[..i], start)
    {
      ghost var from := EveryRunKeepsInv(base, settings, doc, frames[..i], start);
      expansion, left := ExpandEachNodes(settings, doc, frames[i], tree, expansion, base, from, left);
      assert frames[..i + 1][..i] == frames[..i];
    }
    assert frames[..|frames|] == frames;
  }
}
