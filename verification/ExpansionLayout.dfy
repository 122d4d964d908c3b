/** What a rebuild lays out: for every block its rows, each a copy of the template, between its spacers. */
module ExpansionLayout {
  import opened Wrappers
  import opened DomTree
  import opened Taffy
  import opened Window
  import opened Expansion
  import opened ExpansionSafety
  import opened ExpansionBudget
  import opened ExpansionStyles

  /** A row holds a copy of the template, and its overrides lead one to one to the nodes of that copy. */
  ghost predicate IsRow(nodes: Nodes, from: TaffyId, group: Group, template: seq<Node>, looks: Looks) {
    && from + SizeAll(template) <= group.row && group.row in nodes
    && nodes[group.row].style == Style(Flex, Direction.Row, 0.0, Auto, Auto, None) && nodes[group.row].context == None
    && AllMirror(nodes, from, nodes[group.row].children, template, looks, group.overrides)
    && group.overrides.Keys == AllIds(template)
    && Bijects(group.overrides, AllIds(template), group.row - SizeAll(template), group.row)
  }

  /** Rows of their own nodes: the nodes of each come after those of the row before. */
  ghost predicate AreRows(nodes: Nodes, from: TaffyId, groups: seq<Group>, template: seq<Node>, looks: Looks) {
    && (forall k | 0 <= k < |groups| :: IsRow(nodes, from, groups[k], template, looks))
    && (forall j, k | 0 <= j < k < |groups| :: groups[j].row + SizeAll(template) < groups[k].row)
  }

  /** A leaf as high as the rows it stands for. */
  ghost predicate IsSpacer(nodes: Nodes, from: TaffyId, t: TaffyId, rows: nat, rowHeight: real) {
    && from <= t && t in nodes && nodes[t].context == None && nodes[t].children == []
    && nodes[t].style == Style(Flex, Direction.Row, 0.0, Auto, Length(rows as real * rowHeight), None)
  }

  /** The container's children account for all n rows. */
  ghost predicate AccountsForAll(nodes: Nodes, from: TaffyId, plan: Plan, groups: seq<Group>, children: seq<TaffyId>) {
    exists top, bottom :: AccountsWith(nodes, from, plan, groups, children, top, bottom)
  }

  ghost predicate AccountsWith(
    nodes: Nodes, from: TaffyId, plan: Plan, groups: seq<Group>, children: seq<TaffyId>, top: TaffyId, bottom: TaffyId)
  {
    && children == RowsAndSpacers(plan, groups, top, bottom)
    && (plan.first > 0 ==> IsSpacer(nodes, from, top, plan.first, plan.rowHeight))
    && (plan.Last() < plan.n ==> IsSpacer(nodes, from, bottom, plan.n - plan.Last(), plan.rowHeight))
  }

  ghost predicate Furnished(
    nodes: Nodes, from: TaffyId, groups: seq<Group>, template: seq<Node>, looks: Looks, plan: Plan,
    children: seq<TaffyId>) {
    AreRows(nodes, from, groups, template, looks) && AccountsForAll(nodes, from, plan, groups, children)
  }

  /** A block is laid out by a plan. */
  ghost predicate LaidOut(
    doc: Document, nodes: Nodes, from: TaffyId, e: EachExpansion, each: Each, plan: Plan, looks: Looks) {
    var id := each.node.id;
    && id in doc.mapping && doc.mapping[id] in nodes
    && id in e.groups && |e.groups[id]| == plan.visible
    && Furnished(nodes, from, e.groups[id], each.node.children, looks, plan, nodes[doc.mapping[id]].children)
    && nodes[doc.mapping[id]].style.display == Flex && nodes[doc.mapping[id]].style.direction == Column
    && id in e.windowStart && e.windowStart[id] == plan.first
    && (id in e.truncated <==> plan.visible < plan.wanted)
    && (id in e.truncated ==> e.truncated[id] == plan.wanted - plan.visible)
  }

  // ---- Rows ----

  ghost predicate Agrees(nodes: Nodes, nodes': Nodes, from: TaffyId) {
    forall t <- nodes | from <= t :: t in nodes' && nodes'[t] == nodes[t]
  }

  lemma RowStays(
    nodes: Nodes, nodes': Nodes, from: TaffyId, from': TaffyId, group: Group, template: seq<Node>, looks: Looks)
    requires from' <= from && Agrees(nodes, nodes', from) && IsRow(nodes, from, group, template, looks)
    ensures IsRow(nodes', from', group, template, looks)
  {
    AllMirrorStay(nodes, nodes', from, from', nodes[group.row].children, template, looks, group.overrides,
        group.overrides);
  }

  lemma RowsStay(nodes: Nodes, nodes': Nodes, from: TaffyId, groups: seq<Group>, template: seq<Node>, looks: Looks)
    requires Agrees(nodes, nodes', from) && AreRows(nodes, from, groups, template, looks)
    ensures AreRows(nodes', from, groups, template, looks)
  {
    forall k | 0 <= k < |groups| ensures IsRow(nodes', from, groups[k], template, looks) {
      RowStays(nodes, nodes', from, from, groups[k], template, looks);
    }
  }

  /** A container put on top of a copied template makes a row. */
  lemma ContainerMakesRow(c: Copying, start: TaffyId, roots: seq<TaffyId>, template: seq<Node>, looks: Looks)
    requires Below(c) && c.next == start + SizeAll(template) && RootsMirror(c, start, roots, template, looks)
    requires c.overrides.Keys == AllIds(template) && Bijects(c.overrides, AllIds(template), start, c.next)
    ensures IsRow(c.nodes[c.next := TaffyNode(ROW_STYLE, None, roots)], start, Group(c.next, c.overrides), template,
      looks)
  {
    var nodes := c.nodes[c.next := TaffyNode(ROW_STYLE, None, roots)];
    AllMirrorStay(c.nodes, nodes, start, start, roots, template, looks, c.overrides, c.overrides);
  }

  ghost predicate TopIsRow(r: Copying, start: TaffyId, template: seq<Node>, looks: Looks) {
    r.next > 0 && IsRow(r.nodes, start, Group(r.next - 1, r.overrides), template, looks)
  }

  lemma AddRowIsRow(s: Copying, template: seq<Node>, looks: Looks)
    requires Below(s) && AllUnique(template)
    ensures TopIsRow(AddRow(s, template, looks), s.next, template, looks)
  {
    var e := s.(overrides := map[]);
    var c := CopyAll(e, template, looks);
    assert AddRow(s, template, looks) ==
      Copying(c.nodes[c.next := TaffyNode(ROW_STYLE, None, Roots(template, s.next))], c.next + 1, c.overrides,
          c.synthetic + [c.next]);
    CopyAllStaysBelow(e, template, looks);
    CopyAllOverrides(e, template, looks);
    assert c.overrides.Keys == AllIds(template);
    CopyAllBijects(e, template, looks);
    CopyAllMirrors(e, template, looks);
    ContainerMakesRow(c, s.next, Roots(template, s.next), template, looks);
  }

  /** The rows added so far. */
  ghost predicate RowsIn(s: Copying, start: TaffyId, groups: seq<Group>, template: seq<Node>, looks: Looks) {
    AreRows(s.nodes, start, groups, template, looks) && forall i | 0 <= i < |groups| :: groups[i].row < s.next
  }

  lemma OneMoreRow(m: Copying, r: Copying, start: TaffyId, groups: seq<Group>, template: seq<Node>, looks: Looks)
    requires RowsIn(m, start, groups, template, looks) && Below(m) && Grows(m, r)
    requires start <= m.next && r.next == m.next + SizeAll(template) + 1 && TopIsRow(r, m.next, template, looks)
    ensures RowsIn(r, start, groups + [Group(r.next - 1, r.overrides)], template, looks)
  {
    var group := Group(r.next - 1, r.overrides);
    RowsStay(m.nodes, r.nodes, start, groups, template, looks);
    RowStays(r.nodes, r.nodes, m.next, start, group, template, looks);
    RowsJoin(r.nodes, start, groups, group, template, looks);
  }

  lemma RowsJoin(nodes: Nodes, start: TaffyId, groups: seq<Group>, group: Group, template: seq<Node>, looks: Looks)
    requires AreRows(nodes, start, groups, template, looks) && IsRow(nodes, start, group, template, looks)
    requires forall i | 0 <= i < |groups| :: groups[i].row + SizeAll(template) < group.row
    ensures AreRows(nodes, start, groups + [group], template, looks)
  {
    var all := groups + [group];
    assert all[|groups|] == group && forall i | 0 <= i < |groups| :: all[i] == groups[i];
  }

  lemma NextRow(
    m: Copying, r: Copying, start: TaffyId, groups: seq<Group>, groups': seq<Group>, template: seq<Node>, looks: Looks)
    requires Below(m) && AllUnique(template) && start <= m.next && RowsIn(m, start, groups, template, looks)
    requires r == AddRow(m, template, looks) && groups' == groups + [Group(r.next - 1, r.overrides)]
    ensures Below(r) && RowsIn(r, start, groups', template, looks)
  {
    RowGrows(m, template, looks);
    AddRowIsRow(m, template, looks);
    OneMoreRow(m, r, start, groups, template, looks);
  }

  lemma {:induction false} AddRowsAreRows(s: Copying, template: seq<Node>, looks: Looks, k: nat)
    requires Below(s) && AllUnique(template)
    ensures Below(AddRows(s, template, looks, k))
    ensures RowsIn(AddRows(s, template, looks, k), s.next, Groups(s, template, looks, k), template, looks)
  {
    if k > 0 {
      AddRowsAreRows(s, template, looks, k - 1);
      NextRow(AddRows(s, template, looks, k - 1), AddRows(s, template, looks, k), s.next,
              Groups(s, template, looks, k - 1), Groups(s, template, looks, k), template, looks);
    }
  }

  // ---- Blocks ----

  lemma TemplateIsUnique(node: Node)
    requires UniqueIds(node)
    ensures AllUnique(node.children)
  {
  }

  lemma ExpandedIsLaidOut(doc: Document, from: TaffyId, each: Each, plan: Plan, p: Progress)
    requires each.node.id in doc.mapping && doc.mapping[each.node.id] in p.nodes && UniqueIds(each.node)
    requires (forall t <- p.nodes :: t < p.next) && doc.mapping[each.node.id] < from <= p.next && plan.Last() <= plan.n
    requires each.node.id !in p.expansion.truncated && plan.visible <= plan.wanted
    ensures var q := Expanded(doc, each, plan, p);
            LaidOut(doc, q.nodes, from, q.expansion, each, plan, LooksIn(doc.mapping, p.nodes))
  {
    var s, looks := Copying(p.nodes, p.next, map[], p.expansion.synthetic), LooksIn(doc.mapping, p.nodes);
    var q := Expanded(doc, each, plan, p);
    var groups := Groups(s, each.node.children, looks, plan.visible);
    TemplateIsUnique(each.node);
    RowsAreFurnished(s, from, each.node.children, looks, plan);
    ContainerIsFilled(Filled(s, each.node.children, looks, plan).nodes, from, groups, each.node.children, looks, plan,
                      doc.mapping[each.node.id], q.nodes[doc.mapping[each.node.id]]);
  }

  /** The rows and spacers, before the container is given them. */
  lemma RowsAreFurnished(s: Copying, from: TaffyId, template: seq<Node>, looks: Looks, plan: Plan)
    requires Below(s) && AllUnique(template) && plan.Last() <= plan.n && from <= s.next
    ensures Furnished(Filled(s, template, looks, plan).nodes, from, Groups(s, template, looks, plan.visible), template,
      looks,
                      plan, Furniture(s, template, looks, plan))
  {
    var rows, groups := AddRows(s, template, looks, plan.visible), Groups(s, template, looks, plan.visible);
    var above := AddSpacer(rows, plan.first, plan.rowHeight);
    var below := AddSpacer(above, Max(plan.n - plan.Last(), 0), plan.rowHeight);
    var children := RowsAndSpacers(plan, groups, rows.next, above.next);
    assert below == Filled(s, template, looks, plan) && children == Furniture(s, template, looks, plan);
    AddRowsAreRows(s, template, looks, plan.visible);
    SpacersAround(rows, above, below, from, s.next, groups, template, looks, plan, children);
  }

  lemma SpacersAround(rows: Copying, above: Copying, below: Copying, from: TaffyId, start: TaffyId, groups: seq<Group>,
                      template: seq<Node>, looks: Looks, plan: Plan, children: seq<TaffyId>)
    requires above == AddSpacer(rows, plan.first, plan.rowHeight)
    requires plan.Last() <= plan.n && below == AddSpacer(above, plan.n - plan.Last(), plan.rowHeight)
    requires Below(rows) && from <= start <= rows.next && RowsIn(rows, start, groups, template, looks)
    requires children == RowsAndSpacers(plan, groups, rows.next, above.next)
    ensures Furnished(below.nodes, from, groups, template, looks, plan, children)
  {
    SpacersStandAround(rows, above, below, plan);
    assert AccountsWith(below.nodes, from, plan, groups, children, rows.next, above.next);
    SpacersKeepRows(rows.nodes, below.nodes, from, start, groups, template, looks);
  }

  lemma SpacersKeepRows(
    nodes: Nodes, nodes': Nodes, from: TaffyId, start: TaffyId, groups: seq<Group>, template: seq<Node>, looks: Looks)
    requires from <= start && AreRows(nodes, start, groups, template, looks) && Agrees(nodes, nodes', 0)
    ensures AreRows(nodes', from, groups, template, looks)
  {
    RowsStay(nodes, nodes', start, groups, template, looks);
    RowsFromEarlier(nodes', from, start, groups, template, looks);
  }

  /** Giving an earlier node its children disturbs neither rows nor spacers. */
  lemma ContainerIsFilled(
    nodes: Nodes, from: TaffyId, groups: seq<Group>, template: seq<Node>, looks: Looks, plan: Plan, c: TaffyId,
    node: TaffyNode)
    requires c < from && Furnished(nodes, from, groups, template, looks, plan, node.children)
    ensures Furnished(nodes[c := node], from, groups, template, looks, plan, node.children)
  {
    RowsStay(nodes, nodes[c := node], from, groups, template, looks);
    AccountStays(nodes, nodes[c := node], from, plan, groups, node.children);
  }

  lemma AccountStays(nodes: Nodes, nodes': Nodes, from: TaffyId, plan: Plan, groups: seq<Group>, children: seq<TaffyId>)
    requires Agrees(nodes, nodes', from) && AccountsForAll(nodes, from, plan, groups, children)
    ensures AccountsForAll(nodes', from, plan, groups, children)
  {
    var top, bottom :| AccountsWith(nodes, from, plan, groups, children, top, bottom);
    if plan.first > 0 {
      assert IsSpacer(nodes, from, top, plan.first, plan.rowHeight);
      assert IsSpacer(nodes', from, top, plan.first, plan.rowHeight);
    }
    if plan.Last() < plan.n {
      assert IsSpacer(nodes, from, bottom, plan.n - plan.Last(), plan.rowHeight);
      assert IsSpacer(nodes', from, bottom, plan.n - plan.Last(), plan.rowHeight);
    }
    assert AccountsWith(nodes', from, plan, groups, children, top, bottom);
  }

  lemma RowsFromEarlier(
    nodes: Nodes, from: TaffyId, later: TaffyId, groups: seq<Group>, template: seq<Node>, looks: Looks)
    requires from <= later && AreRows(nodes, later, groups, template, looks)
    ensures AreRows(nodes, from, groups, template, looks)
  {
    forall k | 0 <= k < |groups| ensures IsRow(nodes, from, groups[k], template, looks) {
      RowStays(nodes, nodes, later, from, groups[k], template, looks);
    }
  }

  lemma SpacersStandAround(rows: Copying, above: Copying, below: Copying, plan: Plan)
    requires Below(rows) && plan.Last() <= plan.n
    requires above == AddSpacer(rows, plan.first, plan.rowHeight) &&
      below == AddSpacer(above, plan.n - plan.Last(), plan.rowHeight)
    ensures plan.first > 0 ==> IsSpacer(below.nodes, rows.next, rows.next, plan.first, plan.rowHeight)
    ensures plan.Last() < plan.n ==> IsSpacer(below.nodes, rows.next, above.next, plan.n - plan.Last(), plan.rowHeight)
    ensures Agrees(rows.nodes, below.nodes, 0)
  {
  }

  lemma LaidOutStays(
    doc: Document, nodes: Nodes, nodes': Nodes, from: TaffyId, e: EachExpansion, e': EachExpansion, each: Each,
    plan: Plan, looks: Looks)
    requires LaidOut(doc, nodes, from, e, each, plan, looks) && Agrees(nodes, nodes', from)
    requires var c := doc.mapping[each.node.id]; c in nodes' && nodes'[c] == nodes[c]
    requires var id := each.node.id;
             && id in e'.groups && e'.groups[id] == e.groups[id]
             && id in e'.windowStart && e'.windowStart[id] == e.windowStart[id]
             && (id in e'.truncated <==> id in e.truncated)
             && (id in e.truncated ==> e'.truncated[id] == e.truncated[id])
    ensures LaidOut(doc, nodes', from, e', each, plan, looks)
  {
    var groups, children := e.groups[each.node.id], nodes[doc.mapping[each.node.id]].children;
    RowsStay(nodes, nodes', from, groups, each.node.children, looks);
    AccountStays(nodes, nodes', from, plan, groups, children);
  }

  // ---- Rebuilds ----

  /** The plan by which a block was laid out, given what came before it. */
  ghost function PlanAt(settings: Settings, doc: Document, frame: Frame, blocks: seq<Each>, i: nat, p: Progress): Plan
    requires i < |blocks| && !Skipped(doc, frame, blocks[i])
  {
    PlanOf(settings, frame, blocks[i], frame.store[blocks[i].list].length,
        ExpandAll(settings, doc, frame, blocks[..i], p).budget)
  }

  ghost function LooksAt(settings: Settings, doc: Document, frame: Frame, blocks: seq<Each>, i: nat, p: Progress): Looks
    requires i < |blocks|
  {
    LooksIn(doc.mapping, ExpandAll(settings, doc, frame, blocks[..i], p).nodes)
  }

  ghost predicate BlockLaidOut(
    settings: Settings, doc: Document, frame: Frame, blocks: seq<Each>, i: nat, p: Progress, q: Progress)
    requires i < |blocks| && !Skipped(doc, frame, blocks[i])
  {
    LaidOut(doc, q.nodes, p.next, q.expansion, blocks[i],
            PlanAt(settings, doc, frame, blocks, i, p), LooksAt(settings, doc, frame, blocks, i, p))
  }

  /** Expanding another block leaves a block laid out. */
  lemma OtherBlocksStay(
    base: Nodes, doc: Document, from: TaffyId, each: Each, other: Each, plan: Plan, looks: Looks, otherPlan: Plan,
    p: Progress)
    requires Built(base, doc) && Holds(base, from, p.nodes, p.next, p.expansion.synthetic)
    requires LaidOut(doc, p.nodes, from, p.expansion, each, plan, looks)
    requires other.node.id in doc.mapping && other.node.id != each.node.id
    ensures var q := Expanded(doc, other, otherPlan, p); LaidOut(doc, q.nodes, from, q.expansion, each, plan, looks)
  {
    var q := Expanded(doc, other, otherPlan, p);
    forall t | t in p.nodes && t != doc.mapping[other.node.id] ensures t in q.nodes && q.nodes[t] == p.nodes[t] {
      BlockLeaves(doc, other, otherPlan, p, t);
    }
    LaidOutStays(doc, p.nodes, q.nodes, from, p.expansion, q.expansion, each, plan, looks);
  }

  /** One more block, laid out. */
  lemma NextIsLaidOut(
    base: Nodes, settings: Settings, doc: Document, from: TaffyId, frame: Frame, each: Each, p: Progress)
    requires Built(base, doc) && each in doc.blocks && Holds(base, from, p.nodes, p.next, p.expansion.synthetic)
    requires !Skipped(doc, frame, each) && each.node.id !in p.expansion.truncated
    ensures var q, plan := ExpandOne(settings, doc, frame, each, p),
      PlanOf(settings, frame, each, frame.store[each.list].length, p.budget);
            LaidOut(doc, q.nodes, from, q.expansion, each, plan, LooksIn(doc.mapping, p.nodes))
  {
    var n := frame.store[each.list].length;
    var i :| 0 <= i < |doc.blocks| && doc.blocks[i] == each;
    assert BlockBuilt(base, doc.mapping, doc.blocks[i]);
    PlanFits(settings, frame, each, n, p.budget);
    PlanIsWanted(settings, frame, each, n, p.budget);
    ExpandedIsLaidOut(doc, from, each, PlanOf(settings, frame, each, n, p.budget), p);
  }

  lemma NextKeepsLaidOut(
    base: Nodes, settings: Settings, doc: Document, from: TaffyId, frame: Frame, each: Each, plan: Plan, looks: Looks,
    other: Each, p: Progress)
    requires Built(base, doc) && Holds(base, from, p.nodes, p.next, p.expansion.synthetic)
    requires LaidOut(doc, p.nodes, from, p.expansion, each, plan, looks) && other.node.id != each.node.id
    ensures var q := ExpandOne(settings, doc, frame, other, p);
            LaidOut(doc, q.nodes, from, q.expansion, each, plan, looks)
  {
    if !Skipped(doc, frame, other) {
      OtherBlocksStay(base, doc, from, each, other, plan, looks,
          PlanOf(settings, frame, other, frame.store[other.list].length, p.budget), p);
    }
  }

  lemma PlanIsWanted(settings: Settings, frame: Frame, each: Each, n: nat, budget: nat)
    ensures var plan := PlanOf(settings, frame, each, n, budget); plan.visible <= plan.wanted
  {
  }

  lemma {:induction false} BlocksAreLaidOut(
    base: Nodes, settings: Settings, doc: Document, frame: Frame, blocks: seq<Each>, i: nat, p: Progress)
    requires Built(base, doc) && Fresh(base, settings, doc, p)
    requires DistinctBlocks(blocks) && (forall e <- blocks :: e in doc.blocks)
    requires i < |blocks| && !Skipped(doc, frame, blocks[i])
    ensures BlockLaidOut(settings, doc, frame, blocks, i, p, ExpandAll(settings, doc, frame, blocks, p))
    decreases |blocks|
  {
    var init, each := blocks[..|blocks| - 1], blocks[|blocks| - 1];
    assert blocks == init + [each];
    if i == |init| {
      LastIsLaidOut(base, settings, doc, frame, init, each, p);
    } else {
      BlocksAreLaidOut(base, settings, doc, frame, init, i, p);
      EarlierStaysLaidOut(base, settings, doc, frame, init, each, i, p);
    }
  }

  /** One more block is one more step, and leaves the plans of the earlier ones. */
  lemma ExpandOneMore(settings: Settings, doc: Document, frame: Frame, init: seq<Each>, each: Each, p: Progress)
    ensures ExpandAll(settings, doc, frame, init + [each], p) ==
            ExpandOne(settings, doc, frame, each, ExpandAll(settings, doc, frame, init, p))
  {
    var blocks := init + [each];
    assert blocks[..|blocks| - 1] == init && blocks[|blocks| - 1] == each;
  }

  lemma PlanOfLast(settings: Settings, doc: Document, frame: Frame, init: seq<Each>, each: Each, p: Progress)
    requires !Skipped(doc, frame, each)
    ensures var m, blocks := ExpandAll(settings, doc, frame, init, p), init + [each];
            && blocks[|init|] == each
            && PlanAt(settings, doc, frame, blocks, |init|, p) ==
               PlanOf(settings, frame, each, frame.store[each.list].length, m.budget)
            && LooksAt(settings, doc, frame, blocks, |init|, p) == LooksIn(doc.mapping, m.nodes)
  {
    assert (init + [each])[..|init|] == init;
  }

  lemma PlanOfEarlier(settings: Settings, doc: Document, frame: Frame, init: seq<Each>, each: Each, i: nat, p: Progress)
    requires i < |init| && !Skipped(doc, frame, init[i])
    ensures var blocks := init + [each];
            && blocks[i] == init[i]
            && PlanAt(settings, doc, frame, blocks, i, p) == PlanAt(settings, doc, frame, init, i, p)
            && LooksAt(settings, doc, frame, blocks, i, p) == LooksAt(settings, doc, frame, init, i, p)
  {
    assert (init + [each])[..i] == init[..i];
  }

  lemma LastIsLaidOut(
    base: Nodes, settings: Settings, doc: Document, frame: Frame, init: seq<Each>, each: Each, p: Progress)
    requires Built(base, doc) && Fresh(base, settings, doc, p)
    requires DistinctBlocks(init + [each]) && (forall e <- init :: e in doc.blocks) && each in doc.blocks
    requires !Skipped(doc, frame, each)
    ensures BlockLaidOut(settings, doc, frame, init + [each], |init|, p,
                         ExpandAll(settings, doc, frame, init + [each], p))
  {
    ExpandOneMore(settings, doc, frame, init, each, p);
    PlanOfLast(settings, doc, frame, init, each, p);
    MidwayHolds(base, settings, doc, frame, init, p);
    NextIsNew(base, settings, doc, frame, init, each, p);
    NextIsLaidOut(base, settings, doc, p.next, frame, each, ExpandAll(settings, doc, frame, init, p));
  }

  lemma MidwayHolds(base: Nodes, settings: Settings, doc: Document, frame: Frame, init: seq<Each>, p: Progress)
    requires Built(base, doc) && Fresh(base, settings, doc, p) && forall e <- init :: e in doc.blocks
    ensures var m := ExpandAll(settings, doc, frame, init, p);
            Holds(base, p.next, m.nodes, m.next, m.expansion.synthetic)
  {
    ExpandAllKeepsInv(base, settings, doc, p.next, frame, init, p);
  }

  lemma EarlierStaysLaidOut(
    base: Nodes, settings: Settings, doc: Document, frame: Frame, init: seq<Each>, each: Each, i: nat, p: Progress)
    requires Built(base, doc) && Fresh(base, settings, doc, p) && forall e <- init :: e in doc.blocks
    requires i < |init| && !Skipped(doc, frame, init[i]) && each.node.id != init[i].node.id
    requires BlockLaidOut(settings, doc, frame, init, i, p, ExpandAll(settings, doc, frame, init, p))
    ensures BlockLaidOut(settings, doc, frame, init + [each], i, p, ExpandAll(settings, doc, frame, init + [each], p))
  {
    ExpandOneMore(settings, doc, frame, init, each, p);
    PlanOfEarlier(settings, doc, frame, init, each, i, p);
    MidwayHolds(base, settings, doc, frame, init, p);
    NextKeepsLaidOut(base, settings, doc, p.next, frame, init[i], PlanAt(settings, doc, frame, init, i, p),
                     LooksAt(settings, doc, frame, init, i, p), each, ExpandAll(settings, doc, frame, init, p));
  }

  lemma NextIsNew(
    base: Nodes, settings: Settings, doc: Document, frame: Frame, init: seq<Each>, each: Each, p: Progress)
    requires Built(base, doc) && Fresh(base, settings, doc, p)
    requires DistinctBlocks(init + [each]) && (forall e <- init :: e in doc.blocks)
    ensures each.node.id !in ExpandAll(settings, doc, frame, init, p).expansion.truncated
  {
    var blocks := init + [each];
    assert forall i | 0 <= i < |init| :: blocks[i] == init[i];
    assert blocks[|init|] == each;
    BlocksAreAccounted(base, settings, doc, frame, init, p);
  }

  /**
   * After any frames and then one more, every block that is not skipped is laid out for that frame:
   * as many rows as its plan says, each a copy of the template, between spacers for all the others.
   * A copied node has the style it was built with, unless it is a list container that was expanded
   * in an earlier frame, or by an earlier block of this one; then it is a column.
   */
  lemma EveryBlockIsLaidOut(
    base: Nodes, settings: Settings, doc: Document, frames: seq<Frame>, frame: Frame, i: nat, p: Progress)
    requires Built(base, doc) && Initial(base, p)
    requires i < |doc.blocks| && !Skipped(doc, frame, doc.blocks[i])
    ensures var last := Run(settings, doc, frames, p);
            var m := Torn(settings, doc, last);
            && BlockLaidOut(settings, doc, frame, doc.blocks, i, m, Rebuilt(settings, doc, frame, last))
            && (forall d <- doc.mapping :: StyleOf(LooksAt(settings, doc, frame, doc.blocks, i, m), d) ==
                  ColumnIf(base[doc.mapping[d]].style, IsColumnBy(doc, frames, frame, i, doc.mapping[d])))
  {
    var m := Torn(settings, doc, Run(settings, doc, frames, p));
    TornIsFresh(base, settings, doc, frames, p);
    BlocksAreLaidOut(base, settings, doc, frame, doc.blocks, i, m);
    forall d <- doc.mapping ensures StyleOf(LooksAt(settings, doc, frame, doc.blocks, i, m), d) ==
        ColumnIf(base[doc.mapping[d]].style, IsColumnBy(doc, frames, frame, i, doc.mapping[d]))
    {
      StyleAfterRun(base, settings, doc, frames, p, doc.mapping[d]);
      StyleAfterFrame(base, settings, doc, frames, frame, doc.blocks[..i], p, doc.mapping[d]);
    }
  }

  /** A container was expanded before block i of a frame. */
  ghost predicate IsColumnBy(doc: Document, frames: seq<Frame>, frame: Frame, i: nat, t: TaffyId)
    requires i < |doc.blocks|
  {
    EverOpened(doc, frames, t) || Opens(doc, frame, doc.blocks[..i], t)
  }

  ghost function ViewOf(frame: Frame, each: Each): View {
    View(frame.scrollY, frame.height, Lookup(frame.offsets, each.node.id), Lookup(frame.rowHeights, each.node.id))
  }

  ghost predicate OnScreen(settings: Settings, view: View, k: nat) {
    var h := RowHeight(settings, view);
    var top := OffsetY(view) + k as real * h;
    top < view.scrollY + view.height && view.scrollY < top + h
  }

  lemma OnScreenIsPlanned(settings: Settings, frame: Frame, each: Each, budget: nat, k: nat)
    requires each.list in frame.store && frame.store[each.list].List? && k < frame.store[each.list].length
    requires OnScreen(settings, ViewOf(frame, each), k)
    ensures var plan := PlanOf(settings, frame, each, frame.store[each.list].length, budget);
            plan.first <= k && (k < plan.Last() || plan.visible < plan.wanted)
  {
    OnScreenIsNear(settings, ViewOf(frame, each), k);
    WindowIsExact(settings, ViewOf(frame, each), frame.store[each.list].length, RowCost(each), budget);
  }

  /** After any frames, a row whose estimated band meets the viewport has nodes of its own unless the budget ran out. */
  lemma RowsOnScreenAreLaidOut(
    base: Nodes, settings: Settings, doc: Document, frames: seq<Frame>, frame: Frame, i: nat, k: nat, p: Progress)
    requires Built(base, doc) && Initial(base, p)
    requires i < |doc.blocks| && !Skipped(doc, frame, doc.blocks[i]) && k < frame.store[doc.blocks[i].list].length
    requires OnScreen(settings, ViewOf(frame, doc.blocks[i]), k)
    ensures var e, id := Rebuilt(settings, doc, frame, Run(settings, doc, frames, p)).expansion, doc.blocks[i].node.id;
            && id in e.windowStart && id in e.groups
            && e.windowStart[id] <= k && (k < e.windowStart[id] + |e.groups[id]| || id in e.truncated)
  {
    var m, each := Torn(settings, doc, Run(settings, doc, frames, p)), doc.blocks[i];
    EveryBlockIsLaidOut(base, settings, doc, frames, frame, i, p);
    OnScreenIsPlanned(settings, frame, each, ExpandAll(settings, doc, frame, doc.blocks[..i], m).budget, k);
  }

  /** A block that is skipped keeps its template under it. */
  lemma SkippedBlockIsClosed(
    base: Nodes, settings: Settings, doc: Document, frames: seq<Frame>, frame: Frame, i: nat, p: Progress)
    requires Built(base, doc) && Initial(base, p)
    requires i < |doc.blocks| && Skipped(doc, frame, doc.blocks[i]) && doc.blocks[i].node.id in doc.mapping
    ensures var q, c := Rebuilt(settings, doc, frame, Run(settings, doc, frames, p)),
      doc.mapping[doc.blocks[i].node.id];
            && doc.blocks[i].node.id !in q.expansion.groups
            && c in q.nodes && q.nodes[c].children == TemplateIds(doc.mapping, doc.blocks[i].node.children)
  {
    var m := Torn(settings, doc, Run(settings, doc, frames, p));
    TornIsFresh(base, settings, doc, frames, p);
    BlocksAreAccounted(base, settings, doc, frame, doc.blocks, m);
    ExpandAllKeepsInv(base, settings, doc, m.next, frame, doc.blocks, m);
    assert BlockBuilt(base, doc.mapping, doc.blocks[i]);
  }

  // ---- No memory of earlier frames ----

  /** The same rows of the same blocks, whatever their identities in the arena. */
  ghost predicate SameOutcome(p: Progress, q: Progress) {
    && p.budget == q.budget && p.expansion.windowStart == q.expansion.windowStart &&
        p.expansion.truncated == q.expansion.truncated
    && p.expansion.originalChildren == q.expansion.originalChildren &&
        p.expansion.groups.Keys == q.expansion.groups.Keys
    && forall b <- p.expansion.groups :: |p.expansion.groups[b]| == |q.expansion.groups[b]|
  }

  lemma ExpandedAlike(doc: Document, each: Each, plan: Plan, p: Progress, q: Progress)
    requires SameOutcome(p, q) && each.node.id in doc.mapping && doc.mapping[each.node.id] in p.nodes &&
      doc.mapping[each.node.id] in q.nodes
    ensures SameOutcome(Expanded(doc, each, plan, p), Expanded(doc, each, plan, q))
  {
  }

  lemma {:induction false} AllExpandedAlike(
    base: Nodes, settings: Settings, doc: Document, frame: Frame, blocks: seq<Each>, p: Progress, q: Progress)
    requires Built(base, doc) && Fresh(base, settings, doc, p) && Fresh(base, settings, doc, q) &&
      forall e <- blocks :: e in doc.blocks
    ensures SameOutcome(ExpandAll(settings, doc, frame, blocks, p), ExpandAll(settings, doc, frame, blocks, q))
  {
    if blocks != [] {
      var init, each := blocks[..|blocks| - 1], blocks[|blocks| - 1];
      AllExpandedAlike(base, settings, doc, frame, init, p, q);
      var p', q' := ExpandAll(settings, doc, frame, init, p), ExpandAll(settings, doc, frame, init, q);
      ExpandAllKeepsInv(base, settings, doc, p.next, frame, init, p);
      ExpandAllKeepsInv(base, settings, doc, q.next, frame, init, q);
      if !Skipped(doc, frame, each) {
        ExpandedAlike(doc, each, PlanOf(settings, frame, each, frame.store[each.list].length, p'.budget), p', q');
      }
    }
  }

  /** Which rows a frame lays out, and which it leaves out, does not depend on the frames before it; styles may. */
  lemma HistoryIsForgotten(
    base: Nodes, settings: Settings, doc: Document, frames: seq<Frame>, others: seq<Frame>, frame: Frame, p: Progress)
    requires Built(base, doc) && Initial(base, p)
    ensures SameOutcome(Rebuilt(settings, doc, frame, Run(settings, doc, frames, p)),
      Rebuilt(settings, doc, frame, Run(settings, doc, others, p)))
  {
    TornIsFresh(base, settings, doc, frames, p);
    TornIsFresh(base, settings, doc, others, p);
    AllExpandedAlike(base, settings, doc, frame, doc.blocks,
                     Torn(settings, doc, Run(settings, doc, frames, p)),
                         Torn(settings, doc, Run(settings, doc, others, p)));
  }
}
