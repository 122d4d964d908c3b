/** Which containers have become columns: the one trace that earlier frames leave. */
module ExpansionStyles {
  import opened Wrappers
  import opened DomTree
  import opened Taffy
  import opened Window
  import opened Expansion
  import opened ExpansionSafety
  import opened ExpansionBudget

  /** Some of the blocks is expanded in a frame and has the given container. */
  ghost predicate Opens(doc: Document, frame: Frame, blocks: seq<Each>, t: TaffyId) {
    exists i :: 0 <= i < |blocks| && !Skipped(doc, frame, blocks[i]) && doc.mapping[blocks[i].node.id] == t
  }

  /** Some frame expanded a block with the given container. */
  ghost predicate EverOpened(doc: Document, frames: seq<Frame>, t: TaffyId) {
    exists k :: 0 <= k < |frames| && Opens(doc, frames[k], doc.blocks, t)
  }

  function ColumnIf(style: Style, opened': bool): Style {
    if opened' then AsColumn(style) else style
  }

  /** One block makes its own container a column, and changes no other style. */
  lemma StyleAfterOne(
    base: Nodes, settings: Settings, doc: Document, from: TaffyId, frame: Frame, each: Each, p: Progress, t: TaffyId)
    requires Built(base, doc) && Inv(base, doc, from, p) && t in base
    ensures var q := ExpandOne(settings, doc, frame, each, p);
            && t in p.nodes && t in q.nodes
            && q.nodes[t].style ==
               ColumnIf(p.nodes[t].style, !Skipped(doc, frame, each) && doc.mapping[each.node.id] == t)
  {
    assert t in p.nodes;
    if !Skipped(doc, frame, each) && doc.mapping[each.node.id] != t {
      BlockLeaves(doc, each, PlanOf(settings, frame, each, frame.store[each.list].length, p.budget), p, t);
    }
  }

  lemma {:induction false} StyleAfterAll(
    base: Nodes, settings: Settings, doc: Document, from: TaffyId, frame: Frame, blocks: seq<Each>, p: Progress,
    t: TaffyId)
    requires Built(base, doc) && Inv(base, doc, from, p) && t in base && forall e <- blocks :: e in doc.blocks
    ensures var q := ExpandAll(settings, doc, frame, blocks, p);
            && t in p.nodes && t in q.nodes
            && q.nodes[t].style == ColumnIf(p.nodes[t].style, Opens(doc, frame, blocks, t))
  {
    assert t in p.nodes;
    if blocks != [] {
      var init, each := blocks[..|blocks| - 1], blocks[|blocks| - 1];
      StyleAfterAll(base, settings, doc, from, frame, init, p, t);
      ExpandAllKeepsInv(base, settings, doc, from, frame, init, p);
      StyleAfterOne(base, settings, doc, from, frame, each, ExpandAll(settings, doc, frame, init, p), t);
      OpensSplits(doc, frame, blocks, t);
    }
  }

  lemma OpensSplits(doc: Document, frame: Frame, blocks: seq<Each>, t: TaffyId)
    requires blocks != []
    ensures var init, each := blocks[..|blocks| - 1], blocks[|blocks| - 1];
            Opens(doc, frame, blocks, t) <==>
              Opens(doc, frame, init, t) || (!Skipped(doc, frame, each) && doc.mapping[each.node.id] == t)
  {
    var init := blocks[..|blocks| - 1];
    assert forall i | 0 <= i < |init| :: init[i] == blocks[i];
    if Opens(doc, frame, init, t) {
      var i :| 0 <= i < |init| && !Skipped(doc, frame, init[i]) && doc.mapping[init[i].node.id] == t;
      assert !Skipped(doc, frame, blocks[i]);
    }
  }

  lemma StyleAfterTearDown(base: Nodes, doc: Document, from: TaffyId, p: Progress, t: TaffyId)
    requires Inv(base, doc, from, p) && t in base
    ensures var torn := TornDown(doc.mapping, p.nodes, p.expansion);
            t in p.nodes && t in torn && torn[t].style == p.nodes[t].style
  {
    TearDownRestores(base, doc, from, p);
  }

  /** After any frames, a base node is a column if some frame expanded a block into it, and as built otherwise. */
  lemma {:induction false} StyleAfterRun(
    base: Nodes, settings: Settings, doc: Document, frames: seq<Frame>, p: Progress, t: TaffyId)
    requires Built(base, doc) && Initial(base, p) && t in base
    ensures var q := Run(settings, doc, frames, p);
            t in q.nodes && q.nodes[t].style == ColumnIf(base[t].style, EverOpened(doc, frames, t))
  {
    if frames != [] {
      var init, frame := frames[..|frames| - 1], frames[|frames| - 1];
      StyleAfterRun(base, settings, doc, init, p, t);
      StyleAfterFrame(base, settings, doc, init, frame, doc.blocks, p, t);
      assert frames == init + [frame];
      EverOpenedSplits(doc, init, frame, t);
    }
  }

  lemma EverOpenedSplits(doc: Document, frames: seq<Frame>, frame: Frame, t: TaffyId)
    ensures EverOpened(doc, frames + [frame], t) <==> EverOpened(doc, frames, t) || Opens(doc, frame, doc.blocks, t)
  {
    var all := frames + [frame];
    assert all[|frames|] == frame;
    if EverOpened(doc, frames, t) {
      var k :| 0 <= k < |frames| && Opens(doc, frames[k], doc.blocks, t);
      assert Opens(doc, all[k], doc.blocks, t);
    }
  }

  /** The arena a frame starts from: torn down to the base. */
  ghost function Torn(settings: Settings, doc: Document, p: Progress): Progress {
    Progress(TornDown(doc.mapping, p.nodes, p.expansion), p.next, NO_EXPANSION, settings.maxNodes)
  }

  lemma TornIsFresh(base: Nodes, settings: Settings, doc: Document, frames: seq<Frame>, p: Progress)
    requires Built(base, doc) && Initial(base, p)
    ensures Fresh(base, settings, doc, Torn(settings, doc, Run(settings, doc, frames, p)))
  {
    var last := Run(settings, doc, frames, p);
    var from := EveryRunKeepsInv(base, settings, doc, frames, p);
    TearDownRestores(base, doc, from, last);
    RestoredIsInv(base, doc, Torn(settings, doc, last).nodes, last.next, settings.maxNodes);
  }

  /** In the middle of a frame, when only some of its blocks have been expanded. */
  lemma StyleAfterFrame(
    base: Nodes, settings: Settings, doc: Document, frames: seq<Frame>, frame: Frame, blocks: seq<Each>, p: Progress,
    t: TaffyId)
    requires Built(base, doc) && Initial(base, p) && t in base && forall e <- blocks :: e in doc.blocks
    requires var last := Run(settings, doc, frames, p);
             t in last.nodes && last.nodes[t].style == ColumnIf(base[t].style, EverOpened(doc, frames, t))
    ensures var q := ExpandAll(settings, doc, frame, blocks, Torn(settings, doc, Run(settings, doc, frames, p)));
            && t in q.nodes
            && q.nodes[t].style == ColumnIf(base[t].style, EverOpened(doc, frames, t) || Opens(doc, frame, blocks, t))
  {
    var last := Run(settings, doc, frames, p);
    var from := EveryRunKeepsInv(base, settings, doc, frames, p);
    StyleAfterTearDown(base, doc, from, last, t);
    TornIsFresh(base, settings, doc, frames, p);
    StyleAfterAll(base, settings, doc, last.next, frame, blocks, Torn(settings, doc, last), t);
  }

  // ---- What that means for a block ----

  /** A block's container is that of no other block. */
  lemma ContainerIsItsOwn(base: Nodes, doc: Document, frame: Frame, i: nat)
    requires Built(base, doc) && i < |doc.blocks| && doc.blocks[i].node.id in doc.mapping
    ensures Opens(doc, frame, doc.blocks, doc.mapping[doc.blocks[i].node.id]) <==> !Skipped(doc, frame, doc.blocks[i])
  {
  }

  /**
   * Teardown restores children, not styles: after any frames a block's container is as built if and
   * only if every frame skipped the block, or it was a column to begin with.
   */
  lemma ContainerIsAsBuilt(base: Nodes, settings: Settings, doc: Document, frames: seq<Frame>, i: nat, p: Progress)
    requires Built(base, doc) && Initial(base, p) && i < |doc.blocks| && doc.blocks[i].node.id in doc.mapping
    ensures var q, c := Run(settings, doc, frames, p), doc.mapping[doc.blocks[i].node.id];
            && c in q.nodes
            && (q.nodes[c].style == base[c].style <==>
                  || (forall k | 0 <= k < |frames| :: Skipped(doc, frames[k], doc.blocks[i]))
                  || AsColumn(base[c].style) == base[c].style)
  {
    var c := doc.mapping[doc.blocks[i].node.id];
    StyleAfterRun(base, settings, doc, frames, p, c);
    forall k | 0 <= k < |frames| ensures Opens(doc, frames[k], doc.blocks, c) <==>
        !Skipped(doc, frames[k], doc.blocks[i]) {
      ContainerIsItsOwn(base, doc, frames[k], i);
    }
  }

  /**
   * A run that shows it: a list of one row, and then an empty list. The block is skipped in the end,
   * as it is without the first frame, and its container is a column all the same.
   */
  lemma StyleOutlivesTheList(
    base: Nodes, settings: Settings, doc: Document, i: nat, p: Progress) returns (full: Frame, empty: Frame)
    requires Built(base, doc) && Initial(base, p) && i < |doc.blocks|
    requires var each := doc.blocks[i];
             && each.node.id in doc.mapping && each.node.children != []
             && doc.mapping[each.node.id] in base &&
                 AsColumn(base[doc.mapping[each.node.id]].style) != base[doc.mapping[each.node.id]].style
    ensures Skipped(doc, empty, doc.blocks[i])
    ensures var c, with, without :=
              doc.mapping[doc.blocks[i].node.id], Run(settings, doc, [full, empty], p), Run(settings, doc, [empty], p);
            && c in with.nodes && c in without.nodes
            && without.nodes[c].style == base[c].style != with.nodes[c].style
  {
    full := Frame(map[doc.blocks[i].list := List(1)], 0.0, 0.0, map[], map[]);
    empty := full.(store := map[]);
    ContainerIsAsBuilt(base, settings, doc, [full, empty], i, p);
    ContainerIsAsBuilt(base, settings, doc, [empty], i, p);
    assert !Skipped(doc, [full, empty][0], doc.blocks[i]);
  }

  /**
   * Two histories leave a container in different styles exactly when one of them expanded its block
   * and the other did not.
   */
  lemma HistoryShowsInStyles(
    base: Nodes, settings: Settings, doc: Document, frames: seq<Frame>, others: seq<Frame>, frame: Frame, i: nat,
    p: Progress)
    requires Built(base, doc) && Initial(base, p) && i < |doc.blocks| && doc.blocks[i].node.id in doc.mapping
    ensures var q, r := Run(settings, doc, frames + [frame], p), Run(settings, doc, others + [frame], p);
            var c := doc.mapping[doc.blocks[i].node.id];
            && c in q.nodes && c in r.nodes
            && (q.nodes[c].style != r.nodes[c].style <==>
                  && Skipped(doc, frame, doc.blocks[i]) && AsColumn(base[c].style) != base[c].style
                  && EverOpened(doc, frames, c) != EverOpened(doc, others, c))
  {
    var c := doc.mapping[doc.blocks[i].node.id];
    StyleAfterRun(base, settings, doc, frames + [frame], p, c);
    StyleAfterRun(base, settings, doc, others + [frame], p, c);
    EverOpenedSplits(doc, frames, frame, c);
    EverOpenedSplits(doc, others, frame, c);
    ContainerIsItsOwn(base, doc, frame, i);
  }
}
