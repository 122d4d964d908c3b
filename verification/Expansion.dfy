/** The expansion of list blocks into rows of the layout arena, frame after frame. */
module Expansion {
  import opened Wrappers
  import opened DomTree
  import opened Taffy
  import opened Window

  type ListName(==, !new)

  /** A stored value: a list, of which the length matters, or something else. */
  datatype Stored = List(length: nat) | Other

  /** A list block of the document: its children are the template of a row. */
  datatype Each = Each(node: Node, list: ListName)

  /** The blocks in the order the document yields them, and where its nodes are laid out. */
  datatype Document = Document(blocks: seq<Each>, mapping: Mapping)

  /** What a rebuild is given. */
  datatype Frame = Frame(store: map<ListName, Stored>, scrollY: real, height: real, offsets: map<NodeId, real>,
      rowHeights: map<NodeId, real>)

  /** A row: its container, and the copies that stand for the template's nodes. */
  datatype Group = Group(row: TaffyId, overrides: Mapping)

  datatype EachExpansion = EachExpansion(
    groups: map<NodeId, seq<Group>>,
    originalChildren: map<NodeId, seq<TaffyId>>,
    synthetic: seq<TaffyId>,
    truncated: map<NodeId, nat>,
    windowStart: map<NodeId, nat>)

  const NO_EXPANSION := EachExpansion(map[], map[], [], map[], map[])

  const ROW_STYLE := DEFAULT_STYLE.(shrink := 0.0)

  function SpacerStyle(height: real): Style {
    DEFAULT_STYLE.(shrink := 0.0, height := Length(height))
  }

  function AsColumn(style: Style): Style {
    style.(display := Flex, direction := Column)
  }

  function Lookup<K, V>(m: map<K, V>, k: K): Option<V> {
    if k in m then Some(m[k]) else None
  }

  /** The template's top nodes, where they are laid out. */
  function TemplateIds(mapping: Mapping, template: seq<Node>): seq<TaffyId> {
    if template == [] then [] else
    var last := template[|template| - 1];
    TemplateIds(mapping, template[..|template| - 1]) + if last.id in mapping then [mapping[last.id]] else []
  }

  // ---- What one block does to the arena ----

  function AddRow(s: Copying, template: seq<Node>, looks: Looks): (r: Copying)
    ensures r.next == s.next + SizeAll(template) + 1
  {
    var c := CopyAll(s.(overrides := map[]), template, looks);
    Copying(c.nodes[c.next := TaffyNode(ROW_STYLE, None, Roots(template, s.next))], c.next + 1, c.overrides,
        c.synthetic + [c.next])
  }

  function AddRows(s: Copying, template: seq<Node>, looks: Looks, k: nat): (r: Copying)
    ensures s.next <= r.next
  {
    if k == 0 then s else
    AddRow(AddRows(s, template, looks, k - 1), template, looks)
  }

  function Groups(s: Copying, template: seq<Node>, looks: Looks, k: nat): (r: seq<Group>)
    ensures |r| == k
  {
    if k == 0 then [] else
    var row := AddRows(s, template, looks, k);
    Groups(s, template, looks, k - 1) + [Group(row.next - 1, row.overrides)]
  }

  function AddSpacer(s: Copying, rows: nat, rowHeight: real): Copying {
    if rows == 0 then s else
    s.(nodes := s.nodes[s.next := TaffyNode(SpacerStyle(rows as real * rowHeight), None, [])], next := s.next + 1,
        synthetic := s.synthetic + [s.next])
  }

  function RowIds(groups: seq<Group>): (r: seq<TaffyId>)
    ensures |r| == |groups| && forall k | 0 <= k < |r| :: r[k] == groups[k].row
  {
    if groups == [] then [] else RowIds(groups[..|groups| - 1]) + [groups[|groups| - 1].row]
  }

  /** The container's children: a spacer for the rows above, the rows, a spacer for those below. */
  function RowsAndSpacers(plan: Plan, groups: seq<Group>, top: TaffyId, bottom: TaffyId): seq<TaffyId> {
    (if plan.first > 0 then [top] else []) + RowIds(groups) + (if plan.Last() < plan.n then [bottom] else [])
  }

  /** What a block adds: rows, then the spacers. */
  function Filled(s: Copying, template: seq<Node>, looks: Looks, plan: Plan): Copying {
    AddSpacer(AddSpacer(AddRows(s, template, looks, plan.visible), plan.first, plan.rowHeight),
        Max(plan.n - plan.Last(), 0), plan.rowHeight)
  }

  /** The children that the container is given. */
  function Furniture(s: Copying, template: seq<Node>, looks: Looks, plan: Plan): seq<TaffyId> {
    var rows := AddRows(s, template, looks, plan.visible);
    RowsAndSpacers(plan, Groups(s, template, looks, plan.visible), rows.next,
        AddSpacer(rows, plan.first, plan.rowHeight).next)
  }

  /** The container made a column of the given children. */
  function AsContainer(node: TaffyNode, children: seq<TaffyId>): TaffyNode {
    TaffyNode(AsColumn(node.style), node.context, children)
  }

  // ---- A rebuild ----

  /** The arena and the expansion in progress, with the budget that is left. */
  datatype Progress = Progress(nodes: Nodes, next: TaffyId, expansion: EachExpansion, budget: nat)

  /** A block is left as it is when its list is not there or empty, it is not laid out, or has no template. */
  predicate Skipped(doc: Document, frame: Frame, each: Each) {
    || each.list !in frame.store || !frame.store[each.list].List? || frame.store[each.list].length == 0
    || each.node.id !in doc.mapping
    || each.node.children == []
  }

  function PlanOf(settings: Settings, frame: Frame, each: Each, n: nat, budget: nat): Plan {
    var view := View(frame.scrollY, frame.height, Lookup(frame.offsets, each.node.id),
        Lookup(frame.rowHeights, each.node.id));
    PlanFor(settings, view, n, SizeAll(each.node.children) + 1, budget)
  }

  /** The record of a block's expansion added to the others. */
  function Recorded(
    e: EachExpansion, doc: Document, each: Each, plan: Plan, groups: seq<Group>,
    synthetic: seq<TaffyId>): EachExpansion {
    EachExpansion(
      e.groups[each.node.id := groups],
      e.originalChildren[each.node.id := TemplateIds(doc.mapping, each.node.children)],
      synthetic,
      if plan.visible < plan.wanted then e.truncated[each.node.id := plan.wanted - plan.visible] else e.truncated,
      e.windowStart[each.node.id := plan.first])
  }

  /** One block expanded by a given plan. */
  function Expanded(doc: Document, each: Each, plan: Plan, p: Progress): Progress
    requires each.node.id in doc.mapping && doc.mapping[each.node.id] in p.nodes
  {
    var s, looks, container := Copying(p.nodes, p.next, map[], p.expansion.synthetic), LooksIn(doc.mapping, p.nodes),
        doc.mapping[each.node.id];
    var filled := Filled(s, each.node.children, looks, plan);
    Progress(
      filled.nodes[container := AsContainer(p.nodes[container], Furniture(s, each.node.children, looks, plan))],
      filled.next,
      Recorded(p.expansion, doc, each, plan, Groups(s, each.node.children, looks, plan.visible), filled.synthetic),
      Max(p.budget - plan.visible * (SizeAll(each.node.children) + 1), 0))
  }

  function ExpandOne(settings: Settings, doc: Document, frame: Frame, each: Each, p: Progress): Progress {
    if Skipped(doc, frame, each) || doc.mapping[each.node.id] !in p.nodes then p else
    Expanded(doc, each, PlanOf(settings, frame, each, frame.store[each.list].length, p.budget), p)
  }

  function ExpandAll(settings: Settings, doc: Document, frame: Frame, blocks: seq<Each>, p: Progress): Progress {
    if blocks == [] then p else
    ExpandOne(settings, doc, frame, blocks[|blocks| - 1], ExpandAll(settings, doc, frame, blocks[..|blocks| - 1], p))
  }

  /** A container that the previous expansion replaced the children of. */
  ghost predicate IsOpen(mapping: Mapping, original: map<NodeId, seq<TaffyId>>, t: TaffyId) {
    exists b :: b in original && b in mapping && mapping[b] == t
  }

  ghost function Closed(node: TaffyNode, t: TaffyId, mapping: Mapping, original: map<NodeId, seq<TaffyId>>): TaffyNode {
    if IsOpen(mapping, original, t) then
      var b :| b in original && b in mapping && mapping[b] == t;
      node.(children := original[b])
    else node
  }

  /** The arena with the previous expansion undone. */
  ghost function TornDown(mapping: Mapping, nodes: Nodes, prev: EachExpansion): Nodes {
    map t | t in nodes && t !in prev.synthetic :: Closed(nodes[t], t, mapping, prev.originalChildren)
  }

  ghost function Rebuilt(settings: Settings, doc: Document, frame: Frame, p: Progress): Progress {
    ExpandAll(settings, doc, frame, doc.blocks,
              Progress(TornDown(doc.mapping, p.nodes, p.expansion), p.next, NO_EXPANSION, settings.maxNodes))
  }

  /** Frame after frame, starting from a freshly built arena. */
  ghost function Run(settings: Settings, doc: Document, frames: seq<Frame>, p: Progress): Progress {
    if frames == [] then p else
    Rebuilt(settings, doc, frames[|frames| - 1], Run(settings, doc, frames[..|frames| - 1], p))
  }
}
