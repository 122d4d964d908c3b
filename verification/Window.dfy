/** Which rows of a list are laid out: the window around the viewport, and the node budget. */
module Window {
  import opened Wrappers

  function Max(a: int, b: int): int { if a < b then b else a }

  function Min(a: int, b: int): int { if a < b then a else b }

  function Ceiling(x: real): int { -(-x).Floor }

  /** The settings of a process. */
  datatype Settings = Settings(maxNodes: nat, defaultRowHeight: real, bufferRows: nat)

  /** What is on screen, and where a list's container was last measured. */
  datatype View = View(scrollY: real, height: real, offsetY: Option<real>, rowHeight: Option<real>)

  /** Rows first up to first + wanted are near the viewport; the budget admits `visible` of them. */
  datatype Plan = Plan(n: nat, first: nat, wanted: nat, visible: nat, rowHeight: real) {
    function Last(): nat { first + visible }
  }

  function RowHeight(settings: Settings, view: View): (h: real)
    ensures h >= 1.0
  {
    var h := if view.rowHeight.Some? then view.rowHeight.value else settings.defaultRowHeight;
    if h < 1.0 then 1.0 else h
  }

  function OffsetY(view: View): real {
    if view.offsetY.Some? then view.offsetY.value else 0.0
  }

  /** The edges of the viewport widened by the buffer, measured from the container's top. */
  function RelTop(settings: Settings, view: View): real {
    view.scrollY - OffsetY(view) - settings.bufferRows as real * RowHeight(settings, view)
  }

  function RelBottom(settings: Settings, view: View): real {
    view.scrollY + view.height - OffsetY(view) + settings.bufferRows as real * RowHeight(settings, view)
  }

  function PlanFor(settings: Settings, view: View, n: nat, rowCost: nat, budget: nat): Plan
    requires rowCost > 0
  {
    var h := RowHeight(settings, view);
    var first := Min(Max((RelTop(settings, view) / h).Floor, 0), n);
    var wantedLast := Max(first, Min(Max(Ceiling(RelBottom(settings, view) / h), 0), n));
    Plan(n, first, wantedLast - first, Min(wantedLast - first, budget / rowCost), h)
  }

  /** Row k's estimated band, counted from the container's top, meets the widened viewport. */
  ghost predicate Near(settings: Settings, view: View, k: nat) {
    var h := RowHeight(settings, view);
    k as real * h < RelBottom(settings, view) && RelTop(settings, view) < (k + 1) as real * h
  }

  lemma OrderScales(a: real, b: real, h: real)
    requires h > 0.0
    ensures a < b <==> a * h < b * h
  {
    if a < b {
      assert (b - a) * h > 0.0;
    } else {
      assert (a - b) * h >= 0.0;
    }
  }

  lemma ScaledQuotient(x: real, h: real)
    requires h > 0.0
    ensures x / h * h == x
  {
  }

  lemma BandsAndQuotients(settings: Settings, view: View, k: nat)
    ensures var h := RowHeight(settings, view);
            Near(settings, view, k) <==>
              k < Ceiling(RelBottom(settings, view) / h) && (RelTop(settings, view) / h).Floor <= k
  {
    var h := RowHeight(settings, view);
    var top, bottom := RelTop(settings, view), RelBottom(settings, view);
    ScaledQuotient(top, h);
    ScaledQuotient(bottom, h);
    OrderScales(k as real, bottom / h, h);
    OrderScales(top / h, (k + 1) as real, h);
  }

  /**
   * For every scroll position, viewport and measurement: the rows wanted are exactly those near the
   * viewport, so a row on screen is laid out unless the budget cut the end of the window off; and
   * the rows above, in and below the window are all the rows there are.
   */
  lemma WindowIsExact(settings: Settings, view: View, n: nat, rowCost: nat, budget: nat)
    requires rowCost > 0
    ensures var plan := PlanFor(settings, view, n, rowCost, budget);
            && plan.first + plan.wanted <= n
            && (forall k: nat | k < n :: plan.first <= k < plan.first + plan.wanted <==> Near(settings, view, k))
            && plan.visible <= plan.wanted && plan.visible * rowCost <= budget
            && (plan.visible < plan.wanted ==> budget < (plan.visible + 1) * rowCost)
  {
    var plan := PlanFor(settings, view, n, rowCost, budget);
    forall k: nat | k < n ensures plan.first <= k < plan.first + plan.wanted <==> Near(settings, view, k) {
      BandsAndQuotients(settings, view, k);
    }
    BudgetDivides(budget, rowCost, plan.visible);
  }

  lemma BudgetDivides(budget: nat, rowCost: nat, visible: nat)
    requires rowCost > 0
    ensures visible <= budget / rowCost ==> visible * rowCost <= budget
    ensures visible == budget / rowCost ==> budget < (visible + 1) * rowCost
  {
    var q := budget / rowCost;
    assert q * rowCost <= budget < (q + 1) * rowCost;
    if visible <= q {
      assert (q - visible) * rowCost >= 0;
    }
  }

  /** A row that meets the viewport itself is near it. */
  lemma OnScreenIsNear(settings: Settings, view: View, k: nat)
    requires var top := OffsetY(view) + k as real * RowHeight(settings, view);
             top < view.scrollY + view.height && view.scrollY < top + RowHeight(settings, view)
    ensures Near(settings, view, k)
  {
    assert settings.bufferRows as real * RowHeight(settings, view) >= 0.0;
  }
}
