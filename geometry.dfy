/** The rectangles a reposition pass gives the windows (TileLayout.PositionAreaWindows), as pure
    functions of the working area, the layout parameters and the window list. */
module Geometry {
  import opened Axes
  import opened WindowOrder

  /** A System.Drawing.Rectangle with the non-negative size the working area and every computed
      rectangle have. */
  datatype Rect = Rect(x: int, y: int, width: nat, height: nat) {
    function Right(): int
    {
      x + width
    }

    function Bottom(): int
    {
      y + height
    }
  }

  predicate Inside(r: Rect, outer: Rect)
  {
    outer.x <= r.x && r.Right() <= outer.Right() && outer.y <= r.y && r.Bottom() <= outer.Bottom()
  }

  /** The two rectangles do not overlap: one lies wholly to one side of the other. */
  predicate Disjoint(a: Rect, b: Rect)
  {
    a.Right() <= b.x || b.Right() <= a.x || a.Bottom() <= b.y || b.Bottom() <= a.y
  }

  /** Enumerable.Where. */
  function Filter(s: seq<Window>, p: Window -> bool): (r: seq<Window>)
    ensures |r| <= |s|
    ensures forall k :: 0 <= k < |r| ==> p(r[k]) && r[k] in s
  {
    if s == [] then [] else (if p(s[0]) then [s[0]] else []) + Filter(s[1..], p)
  }

  lemma {:induction false} FilterAppend(a: seq<Window>, b: seq<Window>, p: Window -> bool)
    ensures Filter(a + b, p) == Filter(a, p) + Filter(b, p)
  {
    if a == [] {
      assert a + b == b;
    } else {
      assert (a + b)[0] == a[0];
      assert (a + b)[1..] == a[1..] + b;
      FilterAppend(a[1..], b, p);
    }
  }

  /** Where keeps every copy of a window that passes the test and no copy of one that does not. */
  lemma {:induction false} FilterCount(s: seq<Window>, p: Window -> bool, w: Window)
    ensures multiset(Filter(s, p))[w] == if p(w) then multiset(s)[w] else 0
  {
    if s != [] {
      assert s == [s[0]] + s[1..];
      FilterCount(s[1..], p, w);
      var head := if p(s[0]) then [s[0]] else [];
      assert Filter(s, p) == head + Filter(s[1..], p);
      assert multiset(Filter(s, p)) == multiset(head) + multiset(Filter(s[1..], p));
      assert multiset(s) == multiset{s[0]} + multiset(s[1..]);
    }
  }

  /** The windows of one region: the first masterCount windows for the master area, the rest for the stack. */
  function RegionWindows(windows: seq<Window>, masterCount: nat, master: bool): seq<Window>
  {
    if master then Take(windows, masterCount) else Skip(windows, masterCount)
  }

  /** The share of the layout extent a region receives. The master gets everything when no window is
      left for the stack; the stack always gets the complement of the factor. */
  function RegionShare(factor: real, total: nat, regionCount: nat, master: bool): real
  {
    var otherWindowsCount := if master then total - regionCount else -1;
    if otherWindowsCount == 0 then 1.0 else if master then factor else 1.0 - factor
  }

  /** The `(int) (extent * share)` cast, a truncation of a non-negative product. */
  function Scaled(extent: nat, share: real): (r: nat)
    requires 0.0 <= share <= 1.0
    ensures r <= extent
  {
    assert (extent as real) * share <= extent as real;
    ((extent as real) * share).Floor
  }

  /** The rectangle of one region: the master at the start edge of a forward layout axis and at the
      end edge of a reverse one, the stack at the opposite edge, both the whole area under Monocle. */
  function RegionRect(area: Rect, layoutAxis: Axis, share: real, master: bool): Rect
    requires 0.0 <= share <= 1.0
  {
    match layoutAxis
    case LeftToRight =>
      var w := Scaled(area.width, share);
      Rect(if master then area.x else area.Right() - w, area.y, w, area.height)
    case RightToLeft =>
      var w := Scaled(area.width, share);
      Rect(if master then area.Right() - w else area.x, area.y, w, area.height)
    case TopToBottom =>
      var h := Scaled(area.height, share);
      Rect(area.x, if master then area.y else area.Bottom() - h, area.width, h)
    case BottomToTop =>
      var h := Scaled(area.height, share);
      Rect(area.x, if master then area.Bottom() - h else area.y, area.width, h)
    case Monocle => area
  }

  /** The region a pass uses for the master (or stack) windows of the list. */
  function RegionOf(area: Rect, layoutAxis: Axis, factor: real, masterCount: nat, windows: seq<Window>, master: bool): Rect
    requires 0.0 <= factor <= 1.0
  {
    var ws := RegionWindows(windows, masterCount, master);
    RegionRect(area, layoutAxis, RegionShare(factor, |windows|, |ws|, master), master)
  }

  /** The k-th of count equal slots of a region along its axis, counted from the start edge of a
      forward axis and from the end edge of a reverse one; under Monocle every slot is the region. */
  function Slot(region: Rect, axis: Axis, count: nat, k: nat): Rect
    requires count > 0
  {
    match axis
    case LeftToRight =>
      var w := region.width / count;
      Rect(region.x + k * w, region.y, w, region.height)
    case RightToLeft =>
      var w := region.width / count;
      Rect(region.Right() - (k + 1) * w, region.y, w, region.height)
    case TopToBottom =>
      var h := region.height / count;
      Rect(region.x, region.y + k * h, region.width, h)
    case BottomToTop =>
      var h := region.height / count;
      Rect(region.x, region.Bottom() - (k + 1) * h, region.width, h)
    case Monocle => region
  }

  /** The i-th live window placed in the i-th slot. */
  function Placements(region: Rect, axis: Axis, count: nat, live: seq<Window>): (r: seq<(Window, Rect)>)
    requires count > 0
  {
    seq(|live|, i requires 0 <= i < |live| => (live[i], Slot(region, axis, count, i)))
  }

  /** What PositionAreaWindows hands to DeferWindowPos for one region, in order: nothing for an
      empty region; otherwise the windows that are not hung, each in the next slot of a division of
      the region by the number of all its windows, hung ones included. */
  function AreaPlacements(area: Rect, layoutAxis: Axis, regionAxis: Axis, factor: real, masterCount: nat,
                          windows: seq<Window>, master: bool, notHung: Window -> bool): seq<(Window, Rect)>
    requires 0.0 <= factor <= 1.0
  {
    var ws := RegionWindows(windows, masterCount, master);
    if |ws| == 0 then []
    else Placements(RegionOf(area, layoutAxis, factor, masterCount, windows, master), regionAxis, |ws|, Filter(ws, notHung))
  }

  /** One whole reposition pass: the master batch followed by the stack batch. */
  function Layout(area: Rect, layoutAxis: Axis, masterAxis: Axis, stackAxis: Axis, factor: real, masterCount: nat,
                  windows: seq<Window>, notHung: Window -> bool): seq<(Window, Rect)>
    requires 0.0 <= factor <= 1.0
  {
    AreaPlacements(area, layoutAxis, masterAxis, factor, masterCount, windows, true, notHung) +
    AreaPlacements(area, layoutAxis, stackAxis, factor, masterCount, windows, false, notHung)
  }

  function Targets(ps: seq<(Window, Rect)>): seq<Window>
  {
    seq(|ps|, i requires 0 <= i < |ps| => ps[i].0)
  }

  // ---------------------------------------------------------------------------------------------
  // Arithmetic helpers

  lemma MulMonotone(a: nat, b: nat, c: nat)
    requires a <= b
    ensures a * c <= b * c
  {
  }

  lemma DivBounds(e: nat, c: nat)
    requires c > 0
    ensures c * (e / c) <= e
    ensures e - c * (e / c) == e % c < c
  {
  }

  /** The two truncated shares of an extent add up to the extent, less at most one pixel. */
  lemma ScaledSplit(extent: nat, factor: real)
    requires 0.0 <= factor <= 1.0
    ensures extent - 1 <= Scaled(extent, factor) + Scaled(extent, 1.0 - factor) <= extent
  {
    var e := extent as real;
    assert e * (1.0 - factor) == e - e * factor;
    var a, b := Scaled(extent, factor), Scaled(extent, 1.0 - factor);
    assert a as real <= e * factor < a as real + 1.0;
    assert b as real <= e - e * factor < b as real + 1.0;
  }

  // ---------------------------------------------------------------------------------------------
  // Regions

  /** Every region lies inside the working area. */
  lemma RegionInside(area: Rect, layoutAxis: Axis, share: real, master: bool)
    requires 0.0 <= share <= 1.0
    ensures Inside(RegionRect(area, layoutAxis, share, master), area)
  {
  }

  /** Along a directional layout axis the region's extent is the truncated share of the area's; it sits at
      the start edge when it is the master of a forward axis or the stack of a reverse one, at the end edge
      otherwise; across the axis it spans the area. */
  lemma RegionPlacement(area: Rect, layoutAxis: Axis, share: real, master: bool)
    requires 0.0 <= share <= 1.0 && IsDirectional(layoutAxis)
    ensures var r, atStart := RegionRect(area, layoutAxis, share, master), master != IsReverse(layoutAxis);
      if IsHorizontal(layoutAxis) then
        r.width == Scaled(area.width, share) && r.y == area.y && r.height == area.height &&
        (if atStart then r.x == area.x else r.Right() == area.Right())
      else
        r.height == Scaled(area.height, share) && r.x == area.x && r.width == area.width &&
        (if atStart then r.y == area.y else r.Bottom() == area.Bottom())
  {
  }

  /** A Monocle layout axis gives both regions the whole working area. */
  lemma MonocleLayoutFullArea(area: Rect, factor: real, masterCount: nat, windows: seq<Window>, master: bool)
    requires 0.0 <= factor <= 1.0
    ensures RegionOf(area, Monocle, factor, masterCount, windows, master) == area
  {
  }

  /** When no window is left for the stack, the master region is the whole working area, whatever the factor. */
  lemma MasterAloneFillsArea(area: Rect, layoutAxis: Axis, factor: real, masterCount: nat, windows: seq<Window>)
    requires 0.0 <= factor <= 1.0 && masterCount >= |windows|
    ensures RegionOf(area, layoutAxis, factor, masterCount, windows, true) == area
  {
    assert (area.width as real * 1.0).Floor == area.width;
    assert (area.height as real * 1.0).Floor == area.height;
  }

  /** Along a directional layout axis the stack region always has the truncated complement of the factor,
      even when the master region is empty (masterCount == 0): only the master's share is widened. */
  lemma StackKeepsComplement(area: Rect, layoutAxis: Axis, factor: real, masterCount: nat, windows: seq<Window>)
    requires 0.0 <= factor <= 1.0 && IsDirectional(layoutAxis)
    ensures var s := RegionOf(area, layoutAxis, factor, masterCount, windows, false);
      if IsHorizontal(layoutAxis) then s.width == Scaled(area.width, 1.0 - factor)
      else s.height == Scaled(area.height, 1.0 - factor)
  {
  }

  /** When both regions have windows and the layout axis is directional, the master region has the
      factor's share and the stack the complement's: they do not overlap and leave at most one pixel
      of the area between them. */
  lemma RegionsSplitArea(area: Rect, layoutAxis: Axis, factor: real, masterCount: nat, windows: seq<Window>)
    requires 0.0 <= factor <= 1.0 && IsDirectional(layoutAxis) && 0 < masterCount < |windows|
    ensures var m, s := RegionOf(area, layoutAxis, factor, masterCount, windows, true),
                        RegionOf(area, layoutAxis, factor, masterCount, windows, false);
      Disjoint(m, s) && Inside(m, area) && Inside(s, area) &&
      if IsHorizontal(layoutAxis) then
        m.width == Scaled(area.width, factor) && area.width - 1 <= m.width + s.width <= area.width
      else
        m.height == Scaled(area.height, factor) && area.height - 1 <= m.height + s.height <= area.height
  {
    ScaledSplit(area.width, factor);
    ScaledSplit(area.height, factor);
  }

  // ---------------------------------------------------------------------------------------------
  // Slots

  /** Every slot below the count lies inside its region. */
  lemma SlotInside(region: Rect, axis: Axis, count: nat, k: nat)
    requires 0 <= k < count
    ensures Inside(Slot(region, axis, count, k), region)
  {
    DivBounds(region.width, count);
    DivBounds(region.height, count);
    MulMonotone(k + 1, count, region.width / count);
    MulMonotone(k + 1, count, region.height / count);
  }

  /** The end of the i-th of equal spans laid forward from x is no later than the start of the j-th. */
  lemma ForwardSpans(x: int, w: nat, i: nat, j: nat)
    requires i < j
    ensures x + i * w + w <= x + j * w
  {
    MulMonotone(i + 1, j, w);
  }

  /** The end of the j-th of equal spans laid backward from r is no later than the start of the i-th. */
  lemma ReverseSpans(r: int, w: nat, i: nat, j: nat)
    requires i < j
    ensures r - (j + 1) * w + w <= r - (i + 1) * w
  {
    MulMonotone(i + 1, j, w);
  }

  /** Distinct slots of a directional axis do not overlap. */
  lemma SlotsDisjoint(region: Rect, axis: Axis, count: nat, i: nat, j: nat)
    requires IsDirectional(axis) && i < j < count
    ensures Disjoint(Slot(region, axis, count, i), Slot(region, axis, count, j))
  {
    var w, h := region.width / count, region.height / count;
    match axis {
      case LeftToRight => ForwardSpans(region.x, w, i, j);
      case RightToLeft => ReverseSpans(region.Right(), w, i, j);
      case TopToBottom => ForwardSpans(region.y, h, i, j);
      case BottomToTop => ReverseSpans(region.Bottom(), h, i, j);
    }
  }

  /** The slots of a directional axis all have the size extent / count along the axis and the region's
      size across it; the first starts at the start edge (forward) or ends at the end edge (reverse),
      each next one follows the previous without a gap, and the extent % count pixels at the far end stay
      uncovered. A Monocle axis gives every slot the whole region. */
  lemma SlotsTile(region: Rect, axis: Axis, count: nat, k: nat)
    requires 0 <= k < count
    ensures var s, t := Slot(region, axis, count, k), Slot(region, axis, count, k + 1);
      match axis
      case LeftToRight =>
        s.width == region.width / count && s.y == region.y && s.height == region.height &&
        Slot(region, axis, count, 0).x == region.x && t.x == s.Right() &&
        region.Right() - Slot(region, axis, count, count - 1).Right() == region.width % count
      case RightToLeft =>
        s.width == region.width / count && s.y == region.y && s.height == region.height &&
        Slot(region, axis, count, 0).Right() == region.Right() && t.Right() == s.x &&
        Slot(region, axis, count, count - 1).x - region.x == region.width % count
      case TopToBottom =>
        s.height == region.height / count && s.x == region.x && s.width == region.width &&
        Slot(region, axis, count, 0).y == region.y && t.y == s.Bottom() &&
        region.Bottom() - Slot(region, axis, count, count - 1).Bottom() == region.height % count
      case BottomToTop =>
        s.height == region.height / count && s.x == region.x && s.width == region.width &&
        Slot(region, axis, count, 0).Bottom() == region.Bottom() && t.Bottom() == s.y &&
        Slot(region, axis, count, count - 1).y - region.y == region.height % count
      case Monocle => s == region
  {
    DivBounds(region.width, count);
    DivBounds(region.height, count);
  }

  // ---------------------------------------------------------------------------------------------
  // Whole passes

  lemma PlacementsTargets(region: Rect, axis: Axis, count: nat, live: seq<Window>)
    requires count > 0
    ensures Targets(Placements(region, axis, count, live)) == live
  {
  }

  /** The windows a region's batch places are its windows that are not hung, in order. */
  lemma AreaPlacementsTargets(area: Rect, layoutAxis: Axis, regionAxis: Axis, factor: real, masterCount: nat,
                              windows: seq<Window>, master: bool, notHung: Window -> bool)
    requires 0.0 <= factor <= 1.0
    ensures Targets(AreaPlacements(area, layoutAxis, regionAxis, factor, masterCount, windows, master, notHung)) ==
      Filter(RegionWindows(windows, masterCount, master), notHung)
  {
    var ws := RegionWindows(windows, masterCount, master);
    if |ws| > 0 {
      PlacementsTargets(RegionOf(area, layoutAxis, factor, masterCount, windows, master), regionAxis, |ws|, Filter(ws, notHung));
    }
  }

  lemma TargetsAppend(a: seq<(Window, Rect)>, b: seq<(Window, Rect)>)
    ensures Targets(a + b) == Targets(a) + Targets(b)
  {
  }

  /** Every entry of the list that is not hung gets one rectangle, in list order, and no hung entry gets one. */
  lemma LayoutTargets(area: Rect, layoutAxis: Axis, masterAxis: Axis, stackAxis: Axis, factor: real, masterCount: nat,
                      windows: seq<Window>, notHung: Window -> bool)
    requires 0.0 <= factor <= 1.0
    ensures Targets(Layout(area, layoutAxis, masterAxis, stackAxis, factor, masterCount, windows, notHung)) == Filter(windows, notHung)
  {
    var mw, sw := RegionWindows(windows, masterCount, true), RegionWindows(windows, masterCount, false);
    assert mw + sw == windows;
    FilterAppend(mw, sw, notHung);
    AreaPlacementsTargets(area, layoutAxis, masterAxis, factor, masterCount, windows, true, notHung);
    AreaPlacementsTargets(area, layoutAxis, stackAxis, factor, masterCount, windows, false, notHung);
    TargetsAppend(AreaPlacements(area, layoutAxis, masterAxis, factor, masterCount, windows, true, notHung),
                  AreaPlacements(area, layoutAxis, stackAxis, factor, masterCount, windows, false, notHung));
  }

  /** Every rectangle of a region lies inside that region. */
  lemma AreaPlacementsInside(area: Rect, layoutAxis: Axis, regionAxis: Axis, factor: real, masterCount: nat,
                             windows: seq<Window>, master: bool, notHung: Window -> bool)
    requires 0.0 <= factor <= 1.0
    ensures var ps, region := AreaPlacements(area, layoutAxis, regionAxis, factor, masterCount, windows, master, notHung),
                              RegionOf(area, layoutAxis, factor, masterCount, windows, master);
      forall i :: 0 <= i < |ps| ==> Inside(ps[i].1, region)
  {
    var ws := RegionWindows(windows, masterCount, master);
    if |ws| > 0 {
      var region := RegionOf(area, layoutAxis, factor, masterCount, windows, master);
      var live := Filter(ws, notHung);
      forall i | 0 <= i < |live| ensures Inside(Slot(region, regionAxis, |ws|, i), region) {
        SlotInside(region, regionAxis, |ws|, i);
      }
    }
  }

  /** Under a directional region axis the rectangles of one region do not overlap. */
  lemma AreaPlacementsDisjoint(area: Rect, layoutAxis: Axis, regionAxis: Axis, factor: real, masterCount: nat,
                               windows: seq<Window>, master: bool, notHung: Window -> bool)
    requires 0.0 <= factor <= 1.0 && IsDirectional(regionAxis)
    ensures var ps := AreaPlacements(area, layoutAxis, regionAxis, factor, masterCount, windows, master, notHung);
      forall i, j :: 0 <= i < j < |ps| ==> Disjoint(ps[i].1, ps[j].1)
  {
    var ws := RegionWindows(windows, masterCount, master);
    if |ws| > 0 {
      var region := RegionOf(area, layoutAxis, factor, masterCount, windows, master);
      var live := Filter(ws, notHung);
      forall i, j | 0 <= i < j < |live|
        ensures Disjoint(Slot(region, regionAxis, |ws|, i), Slot(region, regionAxis, |ws|, j))
      {
        SlotsDisjoint(region, regionAxis, |ws|, i, j);
      }
    }
  }

  /** Under a Monocle region axis every window of the region gets the whole region. */
  lemma MonocleRegionFullRect(area: Rect, layoutAxis: Axis, factor: real, masterCount: nat,
                              windows: seq<Window>, master: bool, notHung: Window -> bool)
    requires 0.0 <= factor <= 1.0
    ensures var ps := AreaPlacements(area, layoutAxis, Monocle, factor, masterCount, windows, master, notHung);
      forall i :: 0 <= i < |ps| ==> ps[i].1 == RegionOf(area, layoutAxis, factor, masterCount, windows, master)
  {
  }

  /** Every rectangle of a pass lies inside the working area. */
  lemma LayoutInside(area: Rect, layoutAxis: Axis, masterAxis: Axis, stackAxis: Axis, factor: real, masterCount: nat,
                     windows: seq<Window>, notHung: Window -> bool)
    requires 0.0 <= factor <= 1.0
    ensures var ps := Layout(area, layoutAxis, masterAxis, stackAxis, factor, masterCount, windows, notHung);
      forall i :: 0 <= i < |ps| ==> Inside(ps[i].1, area)
  {
    AreaPlacementsInside(area, layoutAxis, masterAxis, factor, masterCount, windows, true, notHung);
    AreaPlacementsInside(area, layoutAxis, stackAxis, factor, masterCount, windows, false, notHung);
    RegionInside(area, layoutAxis, RegionShare(factor, |windows|, |RegionWindows(windows, masterCount, true)|, true), true);
    RegionInside(area, layoutAxis, RegionShare(factor, |windows|, |RegionWindows(windows, masterCount, false)|, false), false);
  }

  /** With a directional layout axis, no master rectangle overlaps a stack rectangle. */
  lemma MasterStackDisjoint(area: Rect, layoutAxis: Axis, masterAxis: Axis, stackAxis: Axis, factor: real, masterCount: nat,
                            windows: seq<Window>, notHung: Window -> bool)
    requires 0.0 <= factor <= 1.0 && IsDirectional(layoutAxis)
    ensures var m, s := AreaPlacements(area, layoutAxis, masterAxis, factor, masterCount, windows, true, notHung),
                        AreaPlacements(area, layoutAxis, stackAxis, factor, masterCount, windows, false, notHung);
      forall i, j :: 0 <= i < |m| && 0 <= j < |s| ==> Disjoint(m[i].1, s[j].1)
  {
    var m := AreaPlacements(area, layoutAxis, masterAxis, factor, masterCount, windows, true, notHung);
    var s := AreaPlacements(area, layoutAxis, stackAxis, factor, masterCount, windows, false, notHung);
    if |m| > 0 && |s| > 0 {
      assert 0 < masterCount < |windows|;
      var mr := RegionOf(area, layoutAxis, factor, masterCount, windows, true);
      var sr := RegionOf(area, layoutAxis, factor, masterCount, windows, false);
      RegionsSplitArea(area, layoutAxis, factor, masterCount, windows);
      AreaPlacementsInside(area, layoutAxis, masterAxis, factor, masterCount, windows, true, notHung);
      AreaPlacementsInside(area, layoutAxis, stackAxis, factor, masterCount, windows, false, notHung);
      forall i, j | 0 <= i < |m| && 0 <= j < |s| ensures Disjoint(m[i].1, s[j].1) {
        assert Inside(m[i].1, mr) && Inside(s[j].1, sr);
      }
    }
  }

  /** A region's batch has at most one rectangle per window of the region. */
  lemma AreaPlacementsSize(area: Rect, layoutAxis: Axis, regionAxis: Axis, factor: real, masterCount: nat,
                           windows: seq<Window>, master: bool, notHung: Window -> bool)
    requires 0.0 <= factor <= 1.0
    ensures |AreaPlacements(area, layoutAxis, regionAxis, factor, masterCount, windows, master, notHung)| <=
      |RegionWindows(windows, masterCount, master)|
  {
    AreaPlacementsTargets(area, layoutAxis, regionAxis, factor, masterCount, windows, master, notHung);
  }

  /** With a directional layout axis, no two rectangles of a pass overlap as long as each region either
      has a directional axis or holds at most one window; the default parameters (a Monocle master area
      with one master window) qualify. */
  lemma LayoutDisjoint(area: Rect, layoutAxis: Axis, masterAxis: Axis, stackAxis: Axis, factor: real, masterCount: nat,
                       windows: seq<Window>, notHung: Window -> bool)
    requires 0.0 <= factor <= 1.0 && IsDirectional(layoutAxis)
    requires IsDirectional(masterAxis) || masterCount <= 1
    requires IsDirectional(stackAxis) || |windows| <= masterCount + 1
    ensures var ps := Layout(area, layoutAxis, masterAxis, stackAxis, factor, masterCount, windows, notHung);
      forall i, j :: 0 <= i < j < |ps| ==> Disjoint(ps[i].1, ps[j].1)
  {
    var m := AreaPlacements(area, layoutAxis, masterAxis, factor, masterCount, windows, true, notHung);
    var s := AreaPlacements(area, layoutAxis, stackAxis, factor, masterCount, windows, false, notHung);
    if IsDirectional(masterAxis) {
      AreaPlacementsDisjoint(area, layoutAxis, masterAxis, factor, masterCount, windows, true, notHung);
    } else {
      AreaPlacementsSize(area, layoutAxis, masterAxis, factor, masterCount, windows, true, notHung);
      assert |m| <= 1;
    }
    if IsDirectional(stackAxis) {
      AreaPlacementsDisjoint(area, layoutAxis, stackAxis, factor, masterCount, windows, false, notHung);
    } else {
      AreaPlacementsSize(area, layoutAxis, stackAxis, factor, masterCount, windows, false, notHung);
      assert |s| <= 1;
    }
    MasterStackDisjoint(area, layoutAxis, masterAxis, stackAxis, factor, masterCount, windows, notHung);
    ConcatDisjoint(m, s);
  }

  /** On a list without duplicates, each window that is not hung gets exactly one rectangle in a pass,
      and every other window none. */
  lemma LayoutTargetsOnce(area: Rect, layoutAxis: Axis, masterAxis: Axis, stackAxis: Axis, factor: real, masterCount: nat,
                          windows: seq<Window>, notHung: Window -> bool)
    requires 0.0 <= factor <= 1.0 && NoDuplicates(windows)
    ensures var ts := Targets(Layout(area, layoutAxis, masterAxis, stackAxis, factor, masterCount, windows, notHung));
      forall w :: multiset(ts)[w] == if w in windows && notHung(w) then 1 else 0
  {
    var ts := Targets(Layout(area, layoutAxis, masterAxis, stackAxis, factor, masterCount, windows, notHung));
    LayoutTargets(area, layoutAxis, masterAxis, stackAxis, factor, masterCount, windows, notHung);
    forall w ensures multiset(ts)[w] == if w in windows && notHung(w) then 1 else 0 {
      FilterCount(windows, notHung, w);
      NoDuplicatesCount(windows, w);
    }
  }

  lemma ConcatDisjoint(m: seq<(Window, Rect)>, s: seq<(Window, Rect)>)
    requires forall i, j :: 0 <= i < j < |m| ==> Disjoint(m[i].1, m[j].1)
    requires forall i, j :: 0 <= i < j < |s| ==> Disjoint(s[i].1, s[j].1)
    requires forall i, j :: 0 <= i < |m| && 0 <= j < |s| ==> Disjoint(m[i].1, s[j].1)
    ensures forall i, j :: 0 <= i < j < |m + s| ==> Disjoint((m + s)[i].1, (m + s)[j].1)
  {
    var ps := m + s;
    forall i, j | 0 <= i < j < |ps| ensures Disjoint(ps[i].1, ps[j].1) {
      if j < |m| {
        assert ps[i] == m[i] && ps[j] == m[j];
      } else if |m| <= i {
        assert ps[i] == s[i - |m|] && ps[j] == s[j - |m|];
      } else {
        assert ps[i] == m[i] && ps[j] == s[j - |m|];
      }
    }
  }

  /** The default parameters on a 1000 x 1000 area with windows C, B, A (created A first): C fills the
      600-pixel master column, B and A split the 400-pixel stack column into two rows. */
  lemma DefaultLayoutExample(a: Window, b: Window, c: Window)
    ensures Layout(Rect(0, 0, 1000, 1000), LeftToRight, Monocle, TopToBottom, 0.6, 1, [c, b, a], _ => true) ==
      [(c, Rect(0, 0, 600, 1000)), (b, Rect(600, 0, 400, 500)), (a, Rect(600, 500, 400, 500))]
  {
    var area, ws, live := Rect(0, 0, 1000, 1000), [c, b, a], (_: Window) => true;
    assert Scaled(1000, 0.6) == 600;
    assert Scaled(1000, 1.0 - 0.6) == 400;
    var mr := RegionOf(area, LeftToRight, 0.6, 1, ws, true);
    var sr := RegionOf(area, LeftToRight, 0.6, 1, ws, false);
    assert mr == Rect(0, 0, 600, 1000);
    assert sr == Rect(600, 0, 400, 1000);
    assert Filter([c], live) == [c];
    assert Filter([b, a], live) == [b, a] by {
      assert [b, a][1..] == [a];
      assert Filter([a], live) == [a];
    }
    assert AreaPlacements(area, LeftToRight, Monocle, 0.6, 1, ws, true, live) == Placements(mr, Monocle, 1, [c]);
    assert AreaPlacements(area, LeftToRight, TopToBottom, 0.6, 1, ws, false, live) == Placements(sr, TopToBottom, 2, [b, a]);
    assert Slot(sr, TopToBottom, 2, 1) == Rect(600, 500, 400, 500);
  }
}
