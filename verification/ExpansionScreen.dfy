/** Which blocks and rows a frame lays out, in terms of the store, the scroll position and the measurements. */
module ExpansionScreen {
  import opened Wrappers
  import opened Selections
  import opened DomTree
  import opened Taffy
  import opened Window
  import opened Expansion
  import opened ExpansionSafety
  import opened ExpansionBudget
  import opened ExpansionStyles
  import opened ExpansionLayout

  /** The block has a list of n elements to show, a container to show them in, and a template to show them with. */
  ghost predicate Shows(doc: Document, frame: Frame, each: Each, n: nat) {
    && each.list in frame.store && frame.store[each.list] == List(n) && n > 0
    && each.node.id in doc.mapping && each.node.children != []
  }

  /** The height of a row: as last measured, or the default, and at least one. */
  ghost predicate IsRowHeight(settings: Settings, frame: Frame, id: NodeId, h: real) {
    var measured := if id in frame.rowHeights then frame.rowHeights[id] else settings.defaultRowHeight;
    h >= 1.0 && h >= measured && (h == 1.0 || h == measured)
  }

  /** Where the container was last measured, or the top of the page. */
  ghost predicate IsOffset(frame: Frame, id: NodeId, y: real) {
    if id in frame.offsets then y == frame.offsets[id] else y == 0.0
  }

  lemma ShownIsNotSkipped(doc: Document, frame: Frame, each: Each)
    ensures !Skipped(doc, frame, each) <==> exists n :: Shows(doc, frame, each, n)
  {
    if !Skipped(doc, frame, each) {
      assert Shows(doc, frame, each, frame.store[each.list].length);
    }
  }

  /** After any frames, a block is recorded exactly when it has something to show. */
  lemma ShownIsRecorded(
    base: Nodes, settings: Settings, doc: Document, frames: seq<Frame>, frame: Frame, i: nat, p: Progress)
    requires Built(base, doc) && Initial(base, p) && i < |doc.blocks|
    ensures var e, id := Rebuilt(settings, doc, frame, Run(settings, doc, frames, p)).expansion, doc.blocks[i].node.id;
            && (id in e.groups <==> exists n :: Shows(doc, frame, doc.blocks[i], n))
            && (id in e.windowStart <==> id in e.groups) && (id in e.originalChildren <==> id in e.groups)
  {
    var m := Torn(settings, doc, Run(settings, doc, frames, p));
    TornIsFresh(base, settings, doc, frames, p);
    BlocksAreAccounted(base, settings, doc, frame, doc.blocks, m);
    ShownIsNotSkipped(doc, frame, doc.blocks[i]);
  }

  /** The number of rows that the budget cut off. */
  ghost function CutOff(e: EachExpansion, id: NodeId): nat {
    if id in e.truncated then e.truncated[id] else 0
  }

  /**
   * The band of row k, which lies between k and k + 1 row heights below the container's top, meets
   * the viewport widened by a margin on both sides.
   */
  ghost predicate BandMeets(frame: Frame, margin: real, y: real, h: real, k: nat) {
    && y + k as real * h < frame.scrollY + frame.height + margin
    && frame.scrollY - margin < y + (k + 1) as real * h
  }

  /** The rows of a block's window, with those that the budget cut off its end, are those near the viewport. */
  ghost predicate WindowMeetsViewport(
    frame: Frame, margin: real, e: EachExpansion, id: NodeId, n: nat, y: real, h: real) {
    && id in e.windowStart && id in e.groups
    && forall k: nat | k < n ::
         BandMeets(frame, margin, y, h, k) <==>
         e.windowStart[id] <= k < e.windowStart[id] + |e.groups[id]| + CutOff(e, id)
  }

  lemma WindowOfPlan(settings: Settings, frame: Frame, each: Each, n: nat, budget: nat, y: real, h: real, k: nat)
    requires IsOffset(frame, each.node.id, y) && IsRowHeight(settings, frame, each.node.id, h) && k < n
    ensures var plan := PlanOf(settings, frame, each, n, budget);
            && plan.visible <= plan.wanted
            && (BandMeets(frame, settings.bufferRows as real * h, y, h, k) <==>
                plan.first <= k < plan.first + plan.wanted)
  {
    var view := ViewOf(frame, each);
    WindowIsExact(settings, view, n, RowCost(each), budget);
    NearIsNearby(settings, frame, each, y, h, k);
  }

  lemma NearIsNearby(settings: Settings, frame: Frame, each: Each, y: real, h: real, k: nat)
    requires IsOffset(frame, each.node.id, y) && IsRowHeight(settings, frame, each.node.id, h)
    ensures Near(settings, ViewOf(frame, each), k) <==> BandMeets(frame, settings.bufferRows as real * h, y, h, k)
  {
    assert RowHeight(settings, ViewOf(frame, each)) == h && OffsetY(ViewOf(frame, each)) == y;
  }

  /** After any frames, for every block with something to show, the margin being so many rows. */
  lemma WindowIsWhatTheViewportMeets(
    base: Nodes, settings: Settings, doc: Document, frames: seq<Frame>, frame: Frame, i: nat, p: Progress,
    n: nat, y: real, h: real)
    requires Built(base, doc) && Initial(base, p) && i < |doc.blocks| && Shows(doc, frame, doc.blocks[i], n)
    requires IsOffset(frame, doc.blocks[i].node.id, y) && IsRowHeight(settings, frame, doc.blocks[i].node.id, h)
    ensures var e := Rebuilt(settings, doc, frame, Run(settings, doc, frames, p)).expansion;
            WindowMeetsViewport(frame, settings.bufferRows as real * h, e, doc.blocks[i].node.id, n, y, h)
  {
    var m, each := Torn(settings, doc, Run(settings, doc, frames, p)), doc.blocks[i];
    var e := Rebuilt(settings, doc, frame, Run(settings, doc, frames, p)).expansion;
    var plan := PlanAt(settings, doc, frame, doc.blocks, i, m);
    var margin := settings.bufferRows as real * h;
    BlockRecordsPlan(base, settings, doc, frames, frame, i, p);
    forall k: nat | k < n
      ensures BandMeets(frame, margin, y, h, k) <==> plan.first <= k < plan.first + plan.wanted
    {
      WindowOfPlan(settings, frame, each, n, ExpandAll(settings, doc, frame, doc.blocks[..i], m).budget, y, h, k);
    }
  }

  /** The record of a block is that of its plan. */
  lemma BlockRecordsPlan(
    base: Nodes, settings: Settings, doc: Document, frames: seq<Frame>, frame: Frame, i: nat, p: Progress)
    requires Built(base, doc) && Initial(base, p) && i < |doc.blocks| && !Skipped(doc, frame, doc.blocks[i])
    ensures var last, id := Run(settings, doc, frames, p), doc.blocks[i].node.id;
            var e := Rebuilt(settings, doc, frame, last).expansion;
            var plan := PlanAt(settings, doc, frame, doc.blocks, i, Torn(settings, doc, last));
            && id in e.windowStart && id in e.groups && e.windowStart[id] == plan.first
            && |e.groups[id]| + CutOff(e, id) == plan.wanted
  {
    EveryBlockIsLaidOut(base, settings, doc, frames, frame, i, p);
    var last, each := Run(settings, doc, frames, p), doc.blocks[i];
    PlanIsWanted(settings, frame, each, frame.store[each.list].length,
                 ExpandAll(settings, doc, frame, doc.blocks[..i], Torn(settings, doc, last)).budget);
  }

  /** A row on screen, with everything written out, has nodes of its own unless the block is recorded as cut off. */
  lemma RowOnScreenIsThere(
    base: Nodes, settings: Settings, doc: Document, frames: seq<Frame>, frame: Frame, i: nat, p: Progress,
    n: nat, y: real, h: real, k: nat)
    requires Built(base, doc) && Initial(base, p) && i < |doc.blocks| && Shows(doc, frame, doc.blocks[i], n) && k < n
    requires IsOffset(frame, doc.blocks[i].node.id, y) && IsRowHeight(settings, frame, doc.blocks[i].node.id, h)
    requires y + k as real * h < frame.scrollY + frame.height && frame.scrollY < y + (k + 1) as real * h
    ensures var e, id := Rebuilt(settings, doc, frame, Run(settings, doc, frames, p)).expansion, doc.blocks[i].node.id;
            && id in e.windowStart && id in e.groups
            && e.windowStart[id] <= k && (k < e.windowStart[id] + |e.groups[id]| || id in e.truncated)
  {
    WindowIsWhatTheViewportMeets(base, settings, doc, frames, frame, i, p, n, y, h);
    assert settings.bufferRows as real * h >= 0.0;
    assert BandMeets(frame, settings.bufferRows as real * h, y, h, k);
  }

  // ---- The template ----

  /** The template children a block gets back are those of its nodes that are laid out, in order. */
  lemma {:induction false} TemplateIdsAreExact(mapping: Mapping, template: seq<Node>)
    ensures Selects(template, TemplateIds(mapping, template), (c: Node) => c.id in mapping,
                    (c: Node, t: TaffyId) => c.id in mapping && mapping[c.id] == t)
  {
    if template != [] {
      var init, last := template[..|template| - 1], template[|template| - 1];
      assert template == init + [last];
      TemplateIdsAreExact(mapping, init);
      var keeps := (c: Node) => c.id in mapping;
      var becomes := (c: Node, t: TaffyId) => c.id in mapping && mapping[c.id] == t;
      if last.id in mapping {
        OneKept(init, TemplateIds(mapping, init), keeps, becomes, last, mapping[last.id]);
      } else {
        OneDropped(init, TemplateIds(mapping, init), keeps, becomes, last);
      }
    }
  }

  /** The styles by their properties: what a column is, and what a node that is not laid out is copied with. */
  lemma StylesAreExact(style: Style, looks: Looks, id: NodeId)
    ensures AsColumn(style) == Style(Flex, Column, style.shrink, style.width, style.height, style.traits)
    ensures id !in looks ==> StyleOf(looks, id) == Style(Flex, Direction.Row, 1.0, Auto, Auto, None)
  {
  }
}
