/** The master/stack tiling layout (class TileLayout): its parameters, its ordered window list, the
    commands that change them and the ILayout notifications it reacts to. */
module Tiling {
  import opened Axes
  import opened Parameters
  import opened WindowOrder
  import opened Geometry
  import Symbol

  /** What a reposition pass reads from its surroundings: the working area of the screen and the check
      that a window still answers (Windawesome.WindowIsNotHung). */
  datatype Env = Env(workingArea: Rect, notHung: Window -> bool)

  class TileLayout {
    var layoutAxis: Axis
    var masterAreaAxis: Axis
    var stackAreaAxis: Axis
    var masterAreaFactor: real
    var windows: seq<Window>
    var masterAreaWindowsCount: Int32

    /** The (window, rectangle) pairs of the most recent reposition pass, master batch first: what it
        handed to DeferWindowPos. */
    ghost var lastBatch: seq<(Window, Rect)>
    /** The number of reposition passes so far. */
    ghost var repositions: nat
    /** The number of layout-updated notifications (Windawesome.DoLayoutUpdated) so far. */
    ghost var notifications: nat

    /** The clamping invariant: the factor lies in [0, 1] and the master window count is not negative. */
    ghost predicate Valid()
      reads this
    {
      0.0 <= masterAreaFactor <= 1.0 && masterAreaWindowsCount >= 0
    }

    /** The placements a reposition pass computes from the current state. */
    ghost function CurrentLayout(env: Env): seq<(Window, Rect)>
      reads this
      requires Valid()
    {
      Layout(env.workingArea, layoutAxis, masterAreaAxis, stackAreaAxis, masterAreaFactor, masterAreaWindowsCount,
             windows, env.notHung)
    }

    constructor (layoutAxis: Axis := Axis.LeftToRight, masterAreaAxis: Axis := Axis.Monocle,
                 stackAreaAxis: Axis := Axis.TopToBottom, masterAreaFactor: real := 0.6,
                 masterAreaWindowsCount: Int32 := 1)
      ensures Valid()
      ensures this.layoutAxis == layoutAxis && this.masterAreaAxis == masterAreaAxis && this.stackAreaAxis == stackAreaAxis
      ensures this.masterAreaFactor == ClampFactor(masterAreaFactor)
      ensures this.masterAreaWindowsCount == ClampCount(masterAreaWindowsCount)
      ensures windows == [] && lastBatch == [] && repositions == 0 && notifications == 0
    {
      this.layoutAxis := layoutAxis;
      this.masterAreaAxis := masterAreaAxis;
      this.stackAreaAxis := stackAreaAxis;
      var factor := masterAreaFactor;
      if factor > 1.0 {
        factor := 1.0;
      } else if factor < 0.0 {
        factor := 0.0;
      }
      this.masterAreaFactor := factor;
      var count := masterAreaWindowsCount;
      if count < 0 {
        count := 0;
      }
      this.masterAreaWindowsCount := count;
      windows := [];
      lastBatch, repositions, notifications := [], 0, 0;
    }

    // ---------------------------------------------------------------------------------------------
    // Commands

    /** Adds count to the master window count (32-bit), clamps at zero and always repositions. */
    method AddToMasterAreaWindowsCount(env: Env, count: Int32 := 1)
      requires Valid()
      modifies this`masterAreaWindowsCount, this`lastBatch, this`repositions
      ensures Valid()
      ensures masterAreaWindowsCount == AddCount(old(masterAreaWindowsCount), count)
      ensures lastBatch == CurrentLayout(env) && repositions == old(repositions) + 1
    {
      masterAreaWindowsCount := Wrap32(masterAreaWindowsCount + count);
      if masterAreaWindowsCount < 0 {
        masterAreaWindowsCount := 0;
      }
      Reposition(env);
    }

    method ToggleLayoutAxis(env: Env)
      requires Valid()
      modifies this`layoutAxis, this`lastBatch, this`repositions, this`notifications
      ensures Valid()
      ensures layoutAxis == Next(old(layoutAxis)) && layoutAxis != old(layoutAxis)
      ensures lastBatch == CurrentLayout(env) && repositions == old(repositions) + 1
      ensures notifications == old(notifications) + 1
    {
      NextChanges(layoutAxis);
      SetLayoutAxis(Next(layoutAxis), env);
    }

    method ToggleMasterAreaAxis(env: Env)
      requires Valid()
      modifies this`masterAreaAxis, this`lastBatch, this`repositions, this`notifications
      ensures Valid()
      ensures masterAreaAxis == Next(old(masterAreaAxis)) && masterAreaAxis != old(masterAreaAxis)
      ensures lastBatch == CurrentLayout(env) && repositions == old(repositions) + 1
      ensures notifications == old(notifications) + 1
    {
      NextChanges(masterAreaAxis);
      SetMasterAreaAxis(Next(masterAreaAxis), env);
    }

    method ToggleStackAreaAxis(env: Env)
      requires Valid()
      modifies this`stackAreaAxis, this`lastBatch, this`repositions, this`notifications
      ensures Valid()
      ensures stackAreaAxis == Next(old(stackAreaAxis)) && stackAreaAxis != old(stackAreaAxis)
      ensures lastBatch == CurrentLayout(env) && repositions == old(repositions) + 1
      ensures notifications == old(notifications) + 1
    {
      NextChanges(stackAreaAxis);
      SetStackAreaAxis(Next(stackAreaAxis), env);
    }

    /** Sets the layout axis; only a real change repositions and notifies. */
    method SetLayoutAxis(layoutAxis: Axis, env: Env)
      requires Valid()
      modifies this`layoutAxis, this`lastBatch, this`repositions, this`notifications
      ensures Valid()
      ensures this.layoutAxis == layoutAxis
      ensures if old(this.layoutAxis) != layoutAxis then
          lastBatch == CurrentLayout(env) && repositions == old(repositions) + 1 && notifications == old(notifications) + 1
        else
          lastBatch == old(lastBatch) && repositions == old(repositions) && notifications == old(notifications)
    {
      if this.layoutAxis != layoutAxis {
        this.layoutAxis := layoutAxis;
        Reposition(env);
        notifications := notifications + 1;
      }
    }

    /** Sets the master-area axis; only a real change repositions and notifies. */
    method SetMasterAreaAxis(masterAreaAxis: Axis, env: Env)
      requires Valid()
      modifies this`masterAreaAxis, this`lastBatch, this`repositions, this`notifications
      ensures Valid()
      ensures this.masterAreaAxis == masterAreaAxis
      ensures if old(this.masterAreaAxis) != masterAreaAxis then
          lastBatch == CurrentLayout(env) && repositions == old(repositions) + 1 && notifications == old(notifications) + 1
        else
          lastBatch == old(lastBatch) && repositions == old(repositions) && notifications == old(notifications)
    {
      if this.masterAreaAxis != masterAreaAxis {
        this.masterAreaAxis := masterAreaAxis;
        Reposition(env);
        notifications := notifications + 1;
      }
    }

    /** Sets the stack-area axis; only a real change repositions and notifies. */
    method SetStackAreaAxis(stackAreaAxis: Axis, env: Env)
      requires Valid()
      modifies this`stackAreaAxis, this`lastBatch, this`repositions, this`notifications
      ensures Valid()
      ensures this.stackAreaAxis == stackAreaAxis
      ensures if old(this.stackAreaAxis) != stackAreaAxis then
          lastBatch == CurrentLayout(env) && repositions == old(repositions) + 1 && notifications == old(notifications) + 1
        else
          lastBatch == old(lastBatch) && repositions == old(repositions) && notifications == old(notifications)
    {
      if this.stackAreaAxis != stackAreaAxis {
        this.stackAreaAxis := stackAreaAxis;
        Reposition(env);
        notifications := notifications + 1;
      }
    }

    /** Exchanges the window with its successor, by adding a node after the successor and removing the
        window's own node; repositions only when the guard lets the shift happen. The window must be in
        the list when the guard holds (Find returns null otherwise and the program fails). */
    method ShiftWindowToNextPosition(window: Window, env: Env)
      requires Valid()
      requires ShiftsNext(windows, window) ==> window in windows
      modifies this`windows, this`lastBatch, this`repositions
      ensures Valid()
      ensures windows == MoveToNext(old(windows), window)
      ensures if ShiftsNext(old(windows), window) then lastBatch == CurrentLayout(env) && repositions == old(repositions) + 1
        else lastBatch == old(lastBatch) && repositions == old(repositions)
    {
      if |windows| > 1 && windows[|windows| - 1] != window {
        var node := IndexOf(windows, window);
        AddAfterNextThenRemove(windows, node);
        windows := RemoveAt(InsertAt(windows, node + 2, window), node);
        Reposition(env);
      }
    }

    /** Exchanges the window with its predecessor, by adding a node before the predecessor and removing
        the window's own node; repositions only when the guard lets the shift happen. */
    method ShiftWindowToPreviousPosition(window: Window, env: Env)
      requires Valid()
      requires ShiftsBack(windows, window) ==> window in windows
      modifies this`windows, this`lastBatch, this`repositions
      ensures Valid()
      ensures windows == MoveToPrevious(old(windows), window)
      ensures if ShiftsBack(old(windows), window) then lastBatch == CurrentLayout(env) && repositions == old(repositions) + 1
        else lastBatch == old(lastBatch) && repositions == old(repositions)
    {
      if |windows| > 1 && windows[0] != window {
        var node := IndexOf(windows, window);
        AddBeforePreviousThenRemove(windows, node);
        windows := RemoveAt(InsertAt(windows, node - 1, window), node + 1);
        Reposition(env);
      }
    }

    /** Moves the window to the front by removing its node and adding it first; repositions only when
        the window was not already first and there is more than one window. */
    method ShiftWindowToMainPosition(window: Window, env: Env)
      requires Valid()
      requires ShiftsBack(windows, window) ==> window in windows
      modifies this`windows, this`lastBatch, this`repositions
      ensures Valid()
      ensures windows == MoveToHead(old(windows), window)
      ensures if ShiftsBack(old(windows), window) then lastBatch == CurrentLayout(env) && repositions == old(repositions) + 1
        else lastBatch == old(lastBatch) && repositions == old(repositions)
    {
      if |windows| > 1 && windows[0] != window {
        var node := IndexOf(windows, window);
        RemoveThenAddFirst(windows, window);
        windows := InsertAt(RemoveAt(windows, node), 0, window);
        Reposition(env);
      }
    }

    /** Adds the change to the factor, clamps it into [0, 1] and always repositions. */
    method AddToMasterAreaFactor(env: Env, masterAreaFactorChange: real := 0.05)
      requires Valid()
      modifies this`masterAreaFactor, this`lastBatch, this`repositions
      ensures Valid()
      ensures masterAreaFactor == ClampFactor(old(masterAreaFactor) + masterAreaFactorChange)
      ensures lastBatch == CurrentLayout(env) && repositions == old(repositions) + 1
    {
      masterAreaFactor := masterAreaFactor + masterAreaFactorChange;
      if masterAreaFactor > 1.0 {
        masterAreaFactor := 1.0;
      } else if masterAreaFactor < 0.0 {
        masterAreaFactor := 0.0;
      }
      Reposition(env);
    }

    // ---------------------------------------------------------------------------------------------
    // Geometry

    /** The placements of one region (PositionAreaWindows): nothing for an empty region; otherwise the
        region from the layout axis, then one slot per window that is not hung. */
    method PositionAreaWindows(env: Env, master: bool) returns (placed: seq<(Window, Rect)>)
      requires Valid()
      ensures placed == AreaPlacements(env.workingArea, layoutAxis, if master then masterAreaAxis else stackAreaAxis,
                                       masterAreaFactor, masterAreaWindowsCount, windows, master, env.notHung)
    {
      var masterOrStackWindows := if master then Take(windows, masterAreaWindowsCount) else Skip(windows, masterAreaWindowsCount);
      placed := [];
      if |masterOrStackWindows| > 0 {
        var region := AreaRegion(env.workingArea, layoutAxis, masterAreaFactor, |windows|, |masterOrStackWindows|, master);
        var axis := if master then masterAreaAxis else stackAreaAxis;
        placed := PlaceWindows(region, axis, masterOrStackWindows, env.notHung);
      }
    }

    /** A reposition pass: the master batch, then the stack batch, submitted together. */
    method Reposition(env: Env)
      requires Valid()
      modifies this`lastBatch, this`repositions
      ensures lastBatch == CurrentLayout(env) && repositions == old(repositions) + 1
    {
      var masterBatch := PositionAreaWindows(env, true);
      var stackBatch := PositionAreaWindows(env, false);
      lastBatch := masterBatch + stackBatch;
      repositions := repositions + 1;
    }

    // ---------------------------------------------------------------------------------------------
    // ILayout members

    /** The status-bar symbol of the layout for the given number of shown windows (its shape is
        Symbol.SymbolShape). */
    function LayoutSymbol(windowsCount: Int32): (symbol: string)
      reads this
      requires Valid()
    {
      Symbol.Render(layoutAxis, masterAreaAxis, stackAreaAxis, masterAreaWindowsCount, windows, windowsCount)
    }

    function LayoutName(): (name: string)
      ensures name == "Tile"
    {
      "Tile"
    }

    /** This layout always computes positions afresh. */
    function ShouldRestoreSharedWindowsPosition(): (restore: bool)
      ensures !restore
    {
      false
    }

    /** Takes over the reported window list, in its order, when its size or its set of windows differs
        from the layout's own; keeps the layout's order otherwise; repositions in both cases. */
    method RepositionWindows(windows: seq<Window>, env: Env)
      requires Valid()
      modifies this`windows, this`lastBatch, this`repositions
      ensures Valid()
      ensures if |old(this.windows)| != |windows| || Members(old(this.windows)) != Members(windows)
        then this.windows == windows else this.windows == old(this.windows)
      ensures |this.windows| == |windows| && Members(this.windows) == Members(windows)
      ensures lastBatch == CurrentLayout(env) && repositions == old(repositions) + 1
    {
      if |this.windows| != |windows| || Members(this.windows) != Members(windows) {
        this.windows := windows;
      }
      Reposition(env);
    }

    /** Toggling a title bar changes nothing in this layout. */
    method WindowTitlebarToggled(window: Window, windows: seq<Window>)
      ensures unchanged(this)
    {
    }

    /** Toggling a border changes nothing in this layout. */
    method WindowBorderToggled(window: Window, windows: seq<Window>)
      ensures unchanged(this)
    {
    }

    /** Removes the first occurrence of the window (none if absent) and repositions. */
    method WindowMinimized(window: Window, windows: seq<Window>, env: Env)
      requires Valid()
      modifies this`windows, this`lastBatch, this`repositions
      ensures Valid()
      ensures this.windows == RemoveFirst(old(this.windows), window)
      ensures lastBatch == CurrentLayout(env) && repositions == old(repositions) + 1
    {
      this.windows := RemoveFirst(this.windows, window);
      Reposition(env);
    }

    /** Adds the window first and repositions. */
    method WindowRestored(window: Window, windows: seq<Window>, env: Env)
      requires Valid()
      modifies this`windows, this`lastBatch, this`repositions
      ensures Valid()
      ensures this.windows == [window] + old(this.windows)
      ensures lastBatch == CurrentLayout(env) && repositions == old(repositions) + 1
    {
      this.windows := InsertAt(this.windows, 0, window);
      Reposition(env);
    }

    /** Adds the window first; repositions only when asked to. */
    method WindowCreated(window: Window, windows: seq<Window>, reLayout: bool, env: Env)
      requires Valid()
      modifies this`windows, this`lastBatch, this`repositions
      ensures Valid()
      ensures this.windows == [window] + old(this.windows)
      ensures if reLayout then lastBatch == CurrentLayout(env) && repositions == old(repositions) + 1
        else lastBatch == old(lastBatch) && repositions == old(repositions)
    {
      this.windows := InsertAt(this.windows, 0, window);
      if reLayout {
        Reposition(env);
      }
    }

    /** Removes the first occurrence of the window (none if absent); repositions only when asked to. */
    method WindowDestroyed(window: Window, windows: seq<Window>, reLayout: bool, env: Env)
      requires Valid()
      modifies this`windows, this`lastBatch, this`repositions
      ensures Valid()
      ensures this.windows == RemoveFirst(old(this.windows), window)
      ensures if reLayout then lastBatch == CurrentLayout(env) && repositions == old(repositions) + 1
        else lastBatch == old(lastBatch) && repositions == old(repositions)
    {
      this.windows := RemoveFirst(this.windows, window);
      if reLayout {
        Reposition(env);
      }
    }
  }

  // -----------------------------------------------------------------------------------------------
  // The steps of PositionAreaWindows

  /** The region's origin and size: the share of the area along the layout axis, at the start or the
      end edge, or the whole area under Monocle. */
  method AreaRegion(area: Rect, layoutAxis: Axis, masterAreaFactor: real, total: nat, count: nat, master: bool)
    returns (region: Rect)
    requires 0.0 <= masterAreaFactor <= 1.0
    ensures region == RegionRect(area, layoutAxis, RegionShare(masterAreaFactor, total, count, master), master)
  {
    var otherWindowsCount := if master then total - count else -1;
    var factor := if otherWindowsCount == 0 then 1.0 else if master then masterAreaFactor else 1.0 - masterAreaFactor;
    var eachWidth: nat, eachHeight: nat := area.width, area.height;
    var x, y := area.x, area.y;
    match layoutAxis {
      case LeftToRight =>
        eachWidth := Scaled(eachWidth, factor);
        x := if master then area.x else area.Right() - eachWidth;
      case RightToLeft =>
        eachWidth := Scaled(eachWidth, factor);
        x := if master then area.Right() - eachWidth else area.x;
      case TopToBottom =>
        eachHeight := Scaled(eachHeight, factor);
        y := if master then area.y else area.Bottom() - eachHeight;
      case BottomToTop =>
        eachHeight := Scaled(eachHeight, factor);
        y := if master then area.Bottom() - eachHeight else area.y;
      case Monocle =>
    }
    region := Rect(x, y, eachWidth, eachHeight);
  }

  /** The first slot of a region: a reverse axis starts at the end edge, and the region's extent along
      the axis is divided by the number of its windows. */
  method FirstSlot(region: Rect, axis: Axis, count: nat) returns (slot: Rect)
    requires count > 0
    ensures slot == Slot(region, axis, count, 0)
  {
    var x, y := region.x, region.y;
    var eachWidth: nat, eachHeight: nat := region.width, region.height;
    match axis {
      case RightToLeft => x := x + eachWidth;
      case BottomToTop => y := y + eachHeight;
      case _ =>
    }
    match axis {
      case LeftToRight | RightToLeft => eachWidth := eachWidth / count;
      case TopToBottom | BottomToTop => eachHeight := eachHeight / count;
      case Monocle =>
    }
    match axis {
      case RightToLeft => x := x - eachWidth;
      case BottomToTop => y := y - eachHeight;
      case _ =>
    }
    slot := Rect(x, y, eachWidth, eachHeight);
  }

  /** Each slot is the previous one moved by its own size along the axis (not at all under Monocle). */
  lemma SlotStep(region: Rect, axis: Axis, count: nat, k: nat)
    requires count > 0
    ensures var s, t := Slot(region, axis, count, k), Slot(region, axis, count, k + 1);
      t == match axis
        case LeftToRight => s.(x := s.x + s.width)
        case RightToLeft => s.(x := s.x - s.width)
        case TopToBottom => s.(y := s.y + s.height)
        case BottomToTop => s.(y := s.y - s.height)
        case Monocle => s
  {
    var w, h := region.width / count, region.height / count;
    assert (k + 1) * w == k * w + w && (k + 2) * w == (k + 1) * w + w;
    assert (k + 1) * h == k * h + h && (k + 2) * h == (k + 1) * h + h;
  }

  /** One more live window takes the next slot. */
  lemma PlacementsAppend(region: Rect, axis: Axis, count: nat, live: seq<Window>, w: Window)
    requires count > 0
    ensures Placements(region, axis, count, live + [w]) ==
      Placements(region, axis, count, live) + [(w, Slot(region, axis, count, |live|))]
  {
    var a, b := Placements(region, axis, count, live + [w]), Placements(region, axis, count, live);
    assert |a| == |b| + 1;
    forall k | 0 <= k < |a|
      ensures a[k] == (b + [(w, Slot(region, axis, count, |live|))])[k]
    {
      if k < |b| {
        assert (live + [w])[k] == live[k];
      }
    }
  }

  /** The loop over the region's windows: every window takes part in the division of the region, but
      only one that is not hung takes a slot and moves the position on. */
  method PlaceWindows(region: Rect, axis: Axis, masterOrStackWindows: seq<Window>, notHung: Window -> bool)
    returns (placed: seq<(Window, Rect)>)
    requires |masterOrStackWindows| > 0
    ensures placed == Placements(region, axis, |masterOrStackWindows|, Filter(masterOrStackWindows, notHung))
  {
    var count := |masterOrStackWindows|;
    var slot := FirstSlot(region, axis, count);
    var x, y := slot.x, slot.y;
    placed := [];
    var i := 0;
    while i < count
      invariant 0 <= i <= count
      invariant placed == Placements(region, axis, count, Filter(masterOrStackWindows[..i], notHung))
      invariant Rect(x, y, slot.width, slot.height) == Slot(region, axis, count, |placed|)
    {
      var window := masterOrStackWindows[i];
      ghost var live := Filter(masterOrStackWindows[..i], notHung);
      assert masterOrStackWindows[..i + 1] == masterOrStackWindows[..i] + [window];
      FilterAppend(masterOrStackWindows[..i], [window], notHung);
      if notHung(window) {
        assert Filter(masterOrStackWindows[..i + 1], notHung) == live + [window];
        PlacementsAppend(region, axis, count, live, window);
        SlotStep(region, axis, count, |placed|);
        placed := placed + [(window, Rect(x, y, slot.width, slot.height))];
        match axis {
          case LeftToRight => x := x + slot.width;
          case RightToLeft => x := x - slot.width;
          case TopToBottom => y := y + slot.height;
          case BottomToTop => y := y - slot.height;
          case Monocle =>
        }
        assert Rect(x, y, slot.width, slot.height) == Slot(region, axis, count, |placed|);
      } else {
        assert Filter(masterOrStackWindows[..i + 1], notHung) == live;
      }
      i := i + 1;
    }
    assert masterOrStackWindows[..count] == masterOrStackWindows;
  }

  // -----------------------------------------------------------------------------------------------
  // What a reposition pass submits

  /** A pass from any valid state places the entries of the list that are not hung, one rectangle each,
      in list order; so on a list without duplicates each window that is not hung gets exactly one
      rectangle and every other window none. */
  lemma BatchTargets(layout: TileLayout, env: Env)
    requires layout.Valid()
    ensures Targets(layout.CurrentLayout(env)) == Filter(layout.windows, env.notHung)
    ensures NoDuplicates(layout.windows) ==> forall w ::
      multiset(Targets(layout.CurrentLayout(env)))[w] == if w in layout.windows && env.notHung(w) then 1 else 0
  {
    var area, la, ma, sa := env.workingArea, layout.layoutAxis, layout.masterAreaAxis, layout.stackAreaAxis;
    var f, m, ws := layout.masterAreaFactor, layout.masterAreaWindowsCount, layout.windows;
    LayoutTargets(area, la, ma, sa, f, m, ws, env.notHung);
    if NoDuplicates(ws) {
      LayoutTargetsOnce(area, la, ma, sa, f, m, ws, env.notHung);
    }
  }

  /** Every rectangle of a pass from any valid state lies inside the working area. */
  lemma BatchInside(layout: TileLayout, env: Env)
    requires layout.Valid()
    ensures var ps := layout.CurrentLayout(env);
      forall i :: 0 <= i < |ps| ==> Inside(ps[i].1, env.workingArea)
  {
    LayoutInside(env.workingArea, layout.layoutAxis, layout.masterAreaAxis, layout.stackAreaAxis,
                 layout.masterAreaFactor, layout.masterAreaWindowsCount, layout.windows, env.notHung);
  }

  /** With a directional layout axis no two rectangles of a pass overlap, as long as each region has a
      directional axis or at most one window (as under the default parameters). */
  lemma BatchDisjoint(layout: TileLayout, env: Env)
    requires layout.Valid() && IsDirectional(layout.layoutAxis)
    requires IsDirectional(layout.masterAreaAxis) || layout.masterAreaWindowsCount <= 1
    requires IsDirectional(layout.stackAreaAxis) || |layout.windows| <= layout.masterAreaWindowsCount + 1
    ensures var ps := layout.CurrentLayout(env);
      forall i, j :: 0 <= i < j < |ps| ==> Disjoint(ps[i].1, ps[j].1)
  {
    LayoutDisjoint(env.workingArea, layout.layoutAxis, layout.masterAreaAxis, layout.stackAreaAxis,
                   layout.masterAreaFactor, layout.masterAreaWindowsCount, layout.windows, env.notHung);
  }

  // -----------------------------------------------------------------------------------------------
  // Sequences of calls, as a client sees them

  /** Creating a window and then destroying it leaves the window list as it was. */
  method CreateThenDestroy(layout: TileLayout, window: Window, others: seq<Window>, env: Env)
    requires layout.Valid()
    modifies layout
    ensures layout.Valid() && layout.windows == old(layout.windows)
  {
    layout.WindowCreated(window, others, true, env);
    layout.WindowDestroyed(window, others, true, env);
  }

  /** Restoring a window and then minimising it leaves the window list as it was. */
  method RestoreThenMinimize(layout: TileLayout, window: Window, others: seq<Window>, env: Env)
    requires layout.Valid()
    modifies layout
    ensures layout.Valid() && layout.windows == old(layout.windows)
  {
    layout.WindowRestored(window, others, env);
    layout.WindowMinimized(window, others, env);
  }

  /** On a list without duplicates, shifting a window that is not last forward and then back restores the list. */
  method ShiftNextThenPrevious(layout: TileLayout, window: Window, env: Env)
    requires layout.Valid() && NoDuplicates(layout.windows) && window in layout.windows
    requires ShiftsNext(layout.windows, window)
    modifies layout
    ensures layout.Valid() && layout.windows == old(layout.windows)
  {
    ghost var before := layout.windows;
    NextThenPrevious(before, window);
    layout.ShiftWindowToNextPosition(window, env);
    layout.ShiftWindowToPreviousPosition(window, env);
  }

  /** A default layout that is told of windows A, B and C in turn, the last with a re-layout, on a
      1000 x 1000 working area: C, created last and so first in the list, fills the 600-pixel master
      column, and B and A split the stack column into two rows. */
  method DefaultScenario(a: Window, b: Window, c: Window) returns (layout: TileLayout)
    ensures layout.windows == [c, b, a]
    ensures layout.lastBatch ==
      [(c, Rect(0, 0, 600, 1000)), (b, Rect(600, 0, 400, 500)), (a, Rect(600, 500, 400, 500))]
    ensures layout.repositions == 1
  {
    var env := Env(Rect(0, 0, 1000, 1000), _ => true);
    layout := new TileLayout();
    layout.WindowCreated(a, [], false, env);
    layout.WindowCreated(b, [], false, env);
    layout.WindowCreated(c, [], true, env);
    DefaultLayoutExample(a, b, c);
  }
}
