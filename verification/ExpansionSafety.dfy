/** Rebuilds conserve the arena: base nodes stay, synthetic nodes are exactly those recorded. */
module ExpansionSafety {
  import opened Wrappers
  import opened DomTree
  import opened Taffy
  import opened Window
  import opened Expansion

  /** What the builder of the base tree leaves: nodes laid out one to one, each block over its template. */
  ghost predicate Built(base: Nodes, doc: Document) {
    && (forall d <- doc.mapping :: doc.mapping[d] in base)
    && (forall d, e | d in doc.mapping && e in doc.mapping && d != e :: doc.mapping[d] != doc.mapping[e])
    && (forall t <- base, c <- base[t].children :: c in base)
    && (forall i | 0 <= i < |doc.blocks| :: BlockBuilt(base, doc.mapping, doc.blocks[i]))
    && (forall i, j | 0 <= i < j < |doc.blocks| :: doc.blocks[i].node.id != doc.blocks[j].node.id)
  }

  ghost predicate BlockBuilt(base: Nodes, mapping: Mapping, each: Each) {
    && UniqueIds(each.node)
    && (each.node.id in mapping && mapping[each.node.id] in base ==>
          base[mapping[each.node.id]].children == TemplateIds(mapping, each.node.children))
  }

  ghost predicate IsContainer(doc: Document, t: TaffyId) {
    exists i :: 0 <= i < |doc.blocks| && doc.blocks[i].node.id in doc.mapping && doc.mapping[doc.blocks[i].node.id] == t
  }

  /** A base node is as built, but a container may have become a column, and an open one has rows. */
  ghost predicate NodeKept(was: TaffyNode, now: TaffyNode, container: bool, isOpen: bool) {
    && now.context == was.context
    && (now.style == was.style || (container && now.style == AsColumn(was.style)))
    && (isOpen || now.children == was.children)
  }

  ghost predicate Kept(base: Nodes, doc: Document, nodes: Nodes, original: map<NodeId, seq<TaffyId>>) {
    forall t <- base :: t in nodes && NodeKept(base[t], nodes[t], IsContainer(doc, t), IsOpen(doc.mapping, original, t))
  }

  /** The arena holds the base nodes and the recorded synthetic ones, numbered from `from` on, and no others. */
  ghost predicate Holds(base: Nodes, from: TaffyId, nodes: Nodes, next: TaffyId, synthetic: seq<TaffyId>) {
    && from <= next && synthetic == Range(from, next)
    && (forall t <- base :: t < from)
    && (forall t :: t in nodes <==> t in base || from <= t < next)
  }

  ghost predicate OriginalsAre(base: Nodes, mapping: Mapping, original: map<NodeId, seq<TaffyId>>) {
    forall b <- original :: b in mapping && mapping[b] in base && original[b] == base[mapping[b]].children
  }

  ghost predicate Inv(base: Nodes, doc: Document, from: TaffyId, p: Progress) {
    && Holds(base, from, p.nodes, p.next, p.expansion.synthetic)
    && Kept(base, doc, p.nodes, p.expansion.originalChildren)
    && OriginalsAre(base, doc.mapping, p.expansion.originalChildren)
  }

  // ---- A block keeps the invariant ----

  lemma RowGrows(s: Copying, template: seq<Node>, looks: Looks)
    ensures Grows(s, AddRow(s, template, looks))
  {
    var e := s.(overrides := map[]);
    var c := CopyAll(e, template, looks);
    CopyAllGrows(e, template, looks);
    GrowthJoins(e, c, AddRow(s, template, looks));
  }

  lemma {:induction false} RowsGrow(s: Copying, template: seq<Node>, looks: Looks, k: nat)
    ensures Grows(s, AddRows(s, template, looks, k))
  {
    if k > 0 {
      RowsGrow(s, template, looks, k - 1);
      RowGrows(AddRows(s, template, looks, k - 1), template, looks);
      GrowthJoins(s, AddRows(s, template, looks, k - 1), AddRows(s, template, looks, k));
    }
  }

  lemma SpacerGrows(s: Copying, rows: nat, rowHeight: real)
    ensures Grows(s, AddSpacer(s, rows, rowHeight))
  {
  }

  lemma BlockGrows(s: Copying, template: seq<Node>, looks: Looks, plan: Plan)
    ensures Grows(s, Filled(s, template, looks, plan))
  {
    var rows := AddRows(s, template, looks, plan.visible);
    var above := AddSpacer(rows, plan.first, plan.rowHeight);
    RowsGrow(s, template, looks, plan.visible);
    SpacerGrows(rows, plan.first, plan.rowHeight);
    SpacerGrows(above, Max(plan.n - plan.Last(), 0), plan.rowHeight);
    GrowthJoins(s, rows, above);
    GrowthJoins(s, above, Filled(s, template, looks, plan));
  }

  lemma GrowthHolds(base: Nodes, from: TaffyId, s: Copying, r: Copying)
    requires Holds(base, from, s.nodes, s.next, s.synthetic) && Grows(s, r)
    ensures Holds(base, from, r.nodes, r.next, r.synthetic)
  {
    RangesJoin(from, s.next, r.next);
  }

  /** Opening one container keeps the others. */
  lemma OpeningKeeps(
    base: Nodes, doc: Document, nodes: Nodes, nodes': Nodes, each: Each, children: seq<TaffyId>,
    original: map<NodeId, seq<TaffyId>>, was: seq<TaffyId>)
    requires each in doc.blocks && each.node.id in doc.mapping && doc.mapping[each.node.id] in base
    requires Kept(base, doc, nodes, original)
    requires var c := doc.mapping[each.node.id]; c in nodes' && nodes'[c] == AsContainer(nodes[c], children)
    requires forall t <- base :: t != doc.mapping[each.node.id] ==> t in nodes' && nodes'[t] == nodes[t]
    ensures Kept(base, doc, nodes', original[each.node.id := was])
  {
    var c, original' := doc.mapping[each.node.id], original[each.node.id := was];
    forall t <- base
      ensures t in nodes' && NodeKept(base[t], nodes'[t], IsContainer(doc, t), IsOpen(doc.mapping, original', t))
    {
      if t == c {
        assert each.node.id in original';
        assert IsOpen(doc.mapping, original', t);
        assert IsContainer(doc, t);
      } else if IsOpen(doc.mapping, original, t) {
        var b :| b in original && b in doc.mapping && doc.mapping[b] == t;
        assert b in original';
      }
    }
  }

  lemma ExpandedKeepsInv(base: Nodes, doc: Document, from: TaffyId, each: Each, plan: Plan, p: Progress)
    requires Built(base, doc) && Inv(base, doc, from, p) && each in doc.blocks
    requires each.node.id in doc.mapping && doc.mapping[each.node.id] in p.nodes
    ensures Inv(base, doc, from, Expanded(doc, each, plan, p))
  {
    var s, looks, c := Copying(p.nodes, p.next, map[], p.expansion.synthetic), LooksIn(doc.mapping, p.nodes),
        doc.mapping[each.node.id];
    var r := Filled(s, each.node.children, looks, plan);
    var q := Expanded(doc, each, plan, p);
    BlockGrows(s, each.node.children, looks, plan);
    GrowthHolds(base, from, s, r);
    var children := q.nodes[c].children;
    assert q.nodes == r.nodes[c := AsContainer(p.nodes[c], children)];
    OpeningKeeps(base, doc, p.nodes, q.nodes, each, children, p.expansion.originalChildren,
        TemplateIds(doc.mapping, each.node.children));
  }

  lemma {:induction false} ExpandAllKeepsInv(
    base: Nodes, settings: Settings, doc: Document, from: TaffyId, frame: Frame, blocks: seq<Each>, p: Progress)
    requires Built(base, doc) && Inv(base, doc, from, p) && forall e <- blocks :: e in doc.blocks
    ensures Inv(base, doc, from, ExpandAll(settings, doc, frame, blocks, p))
  {
    if blocks != [] {
      var each, init := blocks[|blocks| - 1], blocks[..|blocks| - 1];
      ExpandAllKeepsInv(base, settings, doc, from, frame, init, p);
      var m := ExpandAll(settings, doc, frame, init, p);
      if !Skipped(doc, frame, each) && doc.mapping[each.node.id] in m.nodes {
        ExpandedKeepsInv(base, doc, from, each, PlanOf(settings, frame, each, frame.store[each.list].length, m.budget),
            m);
      }
    }
  }

  // ---- Teardown ----

  /** The arena has its base nodes and no others, with their children as built. */
  ghost predicate Restored(base: Nodes, doc: Document, nodes: Nodes) {
    nodes.Keys == base.Keys && forall t <- base :: NodeKept(base[t], nodes[t], IsContainer(doc, t), false)
  }

  /** Teardown gives every block its template back and leaves no synthetic node behind. */
  lemma TearDownRestores(base: Nodes, doc: Document, from: TaffyId, p: Progress)
    requires Inv(base, doc, from, p)
    ensures Restored(base, doc, TornDown(doc.mapping, p.nodes, p.expansion))
  {
    var nodes := TornDown(doc.mapping, p.nodes, p.expansion);
    assert forall t :: t in nodes <==> t in base;
  }

  lemma RestoredIsInv(base: Nodes, doc: Document, nodes: Nodes, next: TaffyId, budget: nat)
    requires Restored(base, doc, nodes) && forall t <- base :: t < next
    ensures Inv(base, doc, next, Progress(nodes, next, NO_EXPANSION, budget))
  {
    assert forall t :: t in nodes <==> t in base;
  }

  lemma RebuildKeepsInv(base: Nodes, settings: Settings, doc: Document, from: TaffyId, frame: Frame, p: Progress)
    requires Built(base, doc) && Inv(base, doc, from, p)
    ensures Inv(base, doc, p.next, Rebuilt(settings, doc, frame, p))
  {
    var nodes := TornDown(doc.mapping, p.nodes, p.expansion);
    TearDownRestores(base, doc, from, p);
    RestoredIsInv(base, doc, nodes, p.next, settings.maxNodes);
    ExpandAllKeepsInv(base, settings, doc, p.next, frame, doc.blocks,
        Progress(nodes, p.next, NO_EXPANSION, settings.maxNodes));
  }

  /** Nothing has been expanded yet. */
  ghost predicate Initial(base: Nodes, p: Progress) {
    p.nodes == base && p.expansion == NO_EXPANSION && forall t <- base :: t < p.next
  }

  lemma {:induction false} EveryRunKeepsInv(
    base: Nodes, settings: Settings, doc: Document, frames: seq<Frame>, p: Progress) returns (from: TaffyId)
    requires Built(base, doc) && Initial(base, p)
    ensures Inv(base, doc, from, Run(settings, doc, frames, p))
  {
    if frames == [] {
      RestoredIsInv(base, doc, base, p.next, p.budget);
      from := p.next;
    } else {
      var init := frames[..|frames| - 1];
      var before := EveryRunKeepsInv(base, settings, doc, init, p);
      RebuildKeepsInv(base, settings, doc, before, frames[|frames| - 1], Run(settings, doc, init, p));
      from := Run(settings, doc, init, p).next;
    }
  }
}
