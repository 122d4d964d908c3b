/** Mouse hit testing, and the screen rectangle the inspector highlights. */
module HitTesting {
  import opened Wrappers
  import opened DomTree

  /** A laid-out node's location within its parent, and its size. */
  datatype Layout = Layout(x: real, y: real, width: real, height: real)

  /** What both walks read: the layout of each mapped node, and how far each scrolled node is scrolled. */
  datatype Context = Context(layouts: map<NodeId, Layout>, scrolls: map<NodeId, real>) {
    function LayoutOf(id: NodeId): Option<Layout> {
      if id in layouts then Some(layouts[id]) else None
    }

    /** A node's contribution to the position of itself and its descendants. */
    function Location(id: NodeId): (real, real) {
      if id in layouts then (layouts[id].x, layouts[id].y) else (0.0, 0.0)
    }

    /** An unmapped node has no size. */
    function Size(id: NodeId): (real, real) {
      if id in layouts then (layouts[id].width, layouts[id].height) else (0.0, 0.0)
    }

    function ScrollOf(id: NodeId): real {
      if id in scrolls then scrolls[id] else 0.0
    }
  }

  datatype Rect = Rect(x0: real, y0: real, x1: real, y1: real) {
    predicate Has(x: real, y: real) {
      x0 <= x <= x1 && y0 <= y <= y1
    }
  }

  // ---- Hit testing, from the root down ----

  /** The node under the mouse: the first child that is hit, or this one. */
  function HitTestNode(
    ctx: Context, node: Node, mouseX: real, mouseY: real, offsetX: real, offsetY: real): Option<NodeId>
    decreases node, 1
  {
    var layout := ctx.LayoutOf(node.id);
    var x := offsetX + if layout.Some? then layout.value.x else 0.0;
    var y := offsetY + if layout.Some? then layout.value.y else 0.0;
    var width := if layout.Some? then layout.value.width else 0.0;
    var height := if layout.Some? then layout.value.height else 0.0;
    if !(mouseX >= x && mouseX <= x + width && mouseY >= y && mouseY <= y + height) then None
    else
      var hit := FirstHit(ctx, node.children, mouseX, mouseY, x, y - ctx.ScrollOf(node.id));
      if hit.Some? then hit else Some(node.id)
  }

  function FirstHit(ctx: Context, children: seq<Node>, mouseX: real, mouseY: real, x: real, y: real): Option<NodeId>
    decreases children, 0
  {
    if children == [] then None else
    var hit := HitTestNode(ctx, children[0], mouseX, mouseY, x, y);
    if hit.Some? then hit else FirstHit(ctx, children[1..], mouseX, mouseY, x, y)
  }

  function HitTest(ctx: Context, root: Node, mouseX: real, mouseY: real): Option<NodeId> {
    HitTestNode(ctx, root, mouseX, mouseY, 0.0, 0.0)
  }

  // ---- Positions ----

  /** Where a node placed at (x, y) by its parent places its children. */
  function Inner(ctx: Context, node: Node, x: real, y: real): (real, real) {
    var (dx, dy) := ctx.Location(node.id);
    (x + dx, y + dy - ctx.ScrollOf(node.id))
  }

  function OwnRect(ctx: Context, node: Node, x: real, y: real): Rect {
    var (dx, dy) := ctx.Location(node.id);
    var (w, h) := ctx.Size(node.id);
    Rect(x + dx, y + dy, x + dx + w, y + dy + h)
  }

  /** Where the node's parent places it: the sum of the ancestors' locations, less their scrolling. */
  function Origin(ctx: Context, node: Node, path: seq<nat>, x: real, y: real): (real, real)
    requires IsPath(node, path)
    decreases |path|
  {
    if path == [] then (x, y) else
    var (cx, cy) := Inner(ctx, node, x, y);
    Origin(ctx, node.children[path[0]], path[1..], cx, cy)
  }

  /** The rectangle of the node at a path, when the root is placed at (x, y). */
  function RectAt(ctx: Context, node: Node, path: seq<nat>, x: real, y: real): Rect
    requires IsPath(node, path)
  {
    var (ox, oy) := Origin(ctx, node, path, x, y);
    OwnRect(ctx, At(node, path), ox, oy)
  }

  /** One level further down. */
  lemma {:induction false} PathExtended(ctx: Context, node: Node, path: seq<nat>, c: nat, x: real, y: real)
    requires IsPath(node, path) && c < |At(node, path).children|
    ensures IsPath(node, path + [c]) && At(node, path + [c]) == At(node, path).children[c]
    ensures var (ox, oy) := Origin(ctx, node, path, x, y);
            Origin(ctx, node, path + [c], x, y) == Inner(ctx, At(node, path), ox, oy)
    decreases |path|
  {
    if path == [] {
      assert path + [c] == [c] && [c][1..] == [];
    } else {
      var (cx, cy) := Inner(ctx, node, x, y);
      PathExtended(ctx, node.children[path[0]], path[1..], c, cx, cy);
      assert (path + [c])[1..] == path[1..] + [c];
    }
  }

  // ---- The inspector's rectangle, from the node up ----

  /** The screen rectangle of the node at a path: nothing for an unmapped node. */
  method NodeScreenRect(ctx: Context, root: Node, path: seq<nat>, rootScrollY: real, chromeHeight: real)
    returns (rect: Option<Rect>)
    requires IsPath(root, path)
    ensures rect.Some? <==> At(root, path).id in ctx.layouts
    ensures rect.Some? ==> rect.value == RectAt(ctx, root, path, 0.0, chromeHeight - rootScrollY)
  {
    var layout := ctx.LayoutOf(At(root, path).id);
    if layout.None? {
      return None;
    }
    var x, y := layout.value.x, layout.value.y;
    var (w, h) := (layout.value.width, layout.value.height);
    var k := |path|;
    assert path[..k] == path;
    ghost var (ox, oy) := Origin(ctx, root, path, 0.0, 0.0);
    while k > 0
      invariant k <= |path| && IsPath(root, path[..k])
      invariant var (px, py) := Origin(ctx, root, path[..k], 0.0, 0.0);
                px + x == ox + layout.value.x && py + y == oy + layout.value.y
    {
      PathPrefix(root, path[..k], k - 1);
      PathSplits(root, path[..k]);
      assert path[..k][..k - 1] == path[..k - 1];
      var ancestor := At(root, path[..k - 1]);
      PathExtended(ctx, root, path[..k - 1], path[k - 1], 0.0, 0.0);
      var (dx, dy) := ctx.Location(ancestor.id);
      x := x + dx;
      y := y + dy - ctx.ScrollOf(ancestor.id);
      k := k - 1;
    }
    var top := y + chromeHeight - rootScrollY;
    OriginShifts(ctx, root, path, 0.0, 0.0, chromeHeight - rootScrollY);
    rect := Some(Rect(x, top, x + w, top + h));
  }

  lemma {:induction false} OriginShifts(ctx: Context, node: Node, path: seq<nat>, x: real, y: real, dy: real)
    requires IsPath(node, path)
    ensures var (ox, oy) := Origin(ctx, node, path, x, y); Origin(ctx, node, path, x, y + dy) == (ox, oy + dy)
    decreases |path|
  {
    if path != [] {
      var (cx, cy) := Inner(ctx, node, x, y);
      OriginShifts(ctx, node.children[path[0]], path[1..], cx, cy, dy);
    }
  }

  // ---- The two agree ----

  /** The node at a path is under the point. */
  ghost predicate Under(ctx: Context, node: Node, path: seq<nat>, x: real, y: real, px: real, py: real)
    requires IsPath(node, path)
  {
    RectAt(ctx, node, path, x, y).Has(px, py)
  }

  /**
   * What a hit is: the point is in the node and in all its ancestors, in no child of the node, and
   * at each level in no sibling before the one taken.
   */
  ghost predicate IsHit(ctx: Context, node: Node, path: seq<nat>, x: real, y: real, px: real, py: real)
    requires IsPath(node, path)
    decreases |path|
  {
    var (cx, cy) := Inner(ctx, node, x, y);
    && OwnRect(ctx, node, x, y).Has(px, py)
    && Misses(ctx, node.children, if path == [] then |node.children| else path[0], cx, cy, px, py)
    && (path != [] ==> IsHit(ctx, node.children[path[0]], path[1..], cx, cy, px, py))
  }

  /** The first n of some siblings do not have the point. */
  ghost predicate Misses(ctx: Context, nodes: seq<Node>, n: nat, x: real, y: real, px: real, py: real)
    requires n <= |nodes|
  {
    forall c | 0 <= c < n :: !OwnRect(ctx, nodes[c], x, y).Has(px, py)
  }

  /** Nothing is hit exactly when the point is outside the node; otherwise what is found is a hit. */
  lemma {:induction false} HitTestFinds(ctx: Context, node: Node, x: real, y: real, px: real, py: real)
    returns (path: seq<nat>)
    ensures IsPath(node, path)
    ensures HitTestNode(ctx, node, px, py, x, y).None? <==> !OwnRect(ctx, node, x, y).Has(px, py)
    ensures HitTestNode(ctx, node, px, py, x, y).Some? ==>
      HitTestNode(ctx, node, px, py, x, y).value == At(node, path).id && IsHit(ctx, node, path, x, y, px, py)
    decreases node, 1
  {
    path := [];
    if OwnRect(ctx, node, x, y).Has(px, py) {
      var (cx, cy) := Inner(ctx, node, x, y);
      var c, sub := FirstHitFinds(ctx, node.children, cx, cy, px, py);
      if c < |node.children| {
        path := [c] + sub;
        assert path[1..] == sub;
      }
    }
  }

  /** The first child under the point, if there is one, and what is hit in it. */
  lemma {:induction false} FirstHitFinds(ctx: Context, nodes: seq<Node>, x: real, y: real, px: real, py: real)
    returns (c: nat, path: seq<nat>)
    ensures c <= |nodes| && Misses(ctx, nodes, c, x, y, px, py)
    ensures c == |nodes| ==> FirstHit(ctx, nodes, px, py, x, y) == None
    ensures c < |nodes| ==>
      && IsPath(nodes[c], path)
      && FirstHit(ctx, nodes, px, py, x, y) == Some(At(nodes[c], path).id)
      && IsHit(ctx, nodes[c], path, x, y, px, py)
    decreases nodes, 0
  {
    c, path := 0, [];
    if nodes != [] {
      path := HitTestFinds(ctx, nodes[0], x, y, px, py);
      if HitTestNode(ctx, nodes[0], px, py, x, y).None? {
        var d, rest := FirstHitFinds(ctx, nodes[1..], x, y, px, py);
        c, path := d + 1, rest;
        assert forall e | 1 <= e < |nodes| :: nodes[e] == nodes[1..][e - 1];
      }
    }
  }

  /** The rectangle of a descendant, seen from the child it goes through. */
  lemma RectOfChild(ctx: Context, node: Node, path: seq<nat>, x: real, y: real)
    requires IsPath(node, path) && path != []
    ensures var (cx, cy) := Inner(ctx, node, x, y);
            RectAt(ctx, node, path, x, y) == RectAt(ctx, node.children[path[0]], path[1..], cx, cy)
  {
  }

  /** At every level of a hit: the ancestor has the point, and no sibling before the one taken. */
  lemma {:induction false} HitUnfolded(
    ctx: Context, node: Node, path: seq<nat>, x: real, y: real, px: real, py: real, k: nat)
    requires IsPath(node, path) && k <= |path| && IsHit(ctx, node, path, x, y, px, py)
    ensures IsPath(node, path[..k]) && Under(ctx, node, path[..k], x, y, px, py)
    ensures forall c: nat | c < (if k < |path| then path[k] else |At(node, path).children|) ::
      IsPath(node, path[..k] + [c]) && !Under(ctx, node, path[..k] + [c], x, y, px, py)
    decreases |path|
  {
    var (cx, cy) := Inner(ctx, node, x, y);
    if k == 0 {
      assert path[..k] == [];
      forall c: nat | c < (if path == [] then |node.children| else path[0])
        ensures IsPath(node, [] + [c]) && !Under(ctx, node, [] + [c], x, y, px, py)
      {
        assert [] + [c] == [c] && [c][1..] == [];
        RectOfChild(ctx, node, [c], x, y);
      }
    } else {
      var child := node.children[path[0]];
      HitUnfolded(ctx, child, path[1..], cx, cy, px, py, k - 1);
      assert path[..k][1..] == path[1..][..k - 1];
      RectOfChild(ctx, node, path[..k], x, y);
      forall c: nat | c < (if k < |path| then path[k] else |At(node, path).children|)
        ensures IsPath(node, path[..k] + [c]) && !Under(ctx, node, path[..k] + [c], x, y, px, py)
      {
        assert (path[..k] + [c])[1..] == path[1..][..k - 1] + [c];
        RectOfChild(ctx, node, path[..k] + [c], x, y);
      }
    }
  }

  /**
   * The rectangle the inspector would highlight for the node at a path has the point; for an
   * unmapped node, which it highlights nothing for, the point where its parent places it.
   */
  ghost predicate OnScreen(ctx: Context, root: Node, path: seq<nat>, x: real, y: real, top: real)
    requires IsPath(root, path)
  {
    Under(ctx, root, path, 0.0, top, x, y + top)
  }

  lemma ScreenShift(ctx: Context, root: Node, path: seq<nat>, x: real, y: real, top: real)
    requires IsPath(root, path)
    ensures OnScreen(ctx, root, path, x, y, top) == Under(ctx, root, path, 0.0, 0.0, x, y)
  {
    OriginShifts(ctx, root, path, 0.0, 0.0, top);
  }

  /**
   * Top-down hit testing agrees with the bottom-up screen rectangles, `top` being the height of the
   * bar less the page's own scrolling: nothing is hit exactly when the point is outside the root;
   * otherwise the point is on screen in the node hit and in every ancestor, in none of the node's
   * children, and at every level in no sibling before the one taken.
   */
  lemma HitMatchesScreen(ctx: Context, root: Node, x: real, y: real, top: real) returns (path: seq<nat>)
    ensures HitTest(ctx, root, x, y).None? <==> !OnScreen(ctx, root, [], x, y, top)
    ensures IsPath(root, path)
    ensures HitTest(ctx, root, x, y).Some? ==>
      && HitTest(ctx, root, x, y).value == At(root, path).id
      && (forall k | 0 <= k <= |path| :: IsPath(root, path[..k]) && OnScreen(ctx, root, path[..k], x, y, top))
      && (forall c: nat | c < |At(root, path).children| ::
            IsPath(root, path + [c]) && !OnScreen(ctx, root, path + [c], x, y, top))
      && (forall k, c: nat | 0 <= k < |path| && c < path[k] ::
            IsPath(root, path[..k] + [c]) && !OnScreen(ctx, root, path[..k] + [c], x, y, top))
  {
    path := HitTestFinds(ctx, root, 0.0, 0.0, x, y);
    ScreenShift(ctx, root, [], x, y, top);
    if HitTest(ctx, root, x, y).Some? {
      forall k | 0 <= k <= |path| ensures IsPath(root, path[..k]) && OnScreen(ctx, root, path[..k], x, y, top) {
        HitUnfolded(ctx, root, path, 0.0, 0.0, x, y, k);
        ScreenShift(ctx, root, path[..k], x, y, top);
      }
      forall c: nat | c < |At(root, path).children|
        ensures IsPath(root, path + [c]) && !OnScreen(ctx, root, path + [c], x, y, top)
      {
        HitUnfolded(ctx, root, path, 0.0, 0.0, x, y, |path|);
        assert path[..|path|] == path;
        ScreenShift(ctx, root, path + [c], x, y, top);
      }
      forall k, c: nat | 0 <= k < |path| && c < path[k]
        ensures IsPath(root, path[..k] + [c]) && !OnScreen(ctx, root, path[..k] + [c], x, y, top)
      {
        HitUnfolded(ctx, root, path, 0.0, 0.0, x, y, k);
        ScreenShift(ctx, root, path[..k] + [c], x, y, top);
      }
    }
  }

  // ---- Positions in so many words ----

  /**
   * The root lies where it is placed; a child lies at its own location within its parent, moved up by
   * as much as the parent is scrolled; and each has its own size. An unmapped node has neither
   * location nor size, and an unscrolled one moves nothing.
   */
  lemma PositionsAreExact(ctx: Context, root: Node, path: seq<nat>, c: nat, x: real, y: real)
    requires IsPath(root, path) && c < |At(root, path).children|
    ensures IsPath(root, path + [c]) && At(root, path + [c]) == At(root, path).children[c]
    ensures var parent, child := At(root, path), At(root, path).children[c];
            var outer, inner := RectAt(ctx, root, path, x, y), RectAt(ctx, root, path + [c], x, y);
            var scroll := if parent.id in ctx.scrolls then ctx.scrolls[parent.id] else 0.0;
            if child.id in ctx.layouts then
              var layout := ctx.layouts[child.id];
              && inner.x0 == outer.x0 + layout.x && inner.y0 == outer.y0 - scroll + layout.y
              && inner.x1 == inner.x0 + layout.width && inner.y1 == inner.y0 + layout.height
            else inner == Rect(outer.x0, outer.y0 - scroll, outer.x0, outer.y0 - scroll)
  {
    PathExtended(ctx, root, path, c, x, y);
  }

  lemma RootPosition(ctx: Context, root: Node, x: real, y: real)
    requires root.id in ctx.layouts
    ensures var layout, rect := ctx.layouts[root.id], RectAt(ctx, root, [], x, y);
            rect == Rect(x + layout.x, y + layout.y, x + layout.x + layout.width, y + layout.y + layout.height)
  {
  }

  /** A rectangle has its edges. */
  lemma RectHasItsEdges(r: Rect, x: real, y: real)
    ensures r.Has(x, y) <==> !(x < r.x0 || r.x1 < x || y < r.y0 || r.y1 < y)
  {
  }
}
