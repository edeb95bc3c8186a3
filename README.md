# TileLayout: the master/stack tiler of Windawesome

Windawesome is a tiling window manager for Windows. Its `TileLayout` keeps the windows of a workspace
in an ordered list. The first `masterAreaWindowsCount` windows form the master area and the rest form
the stack. A layout axis splits the working area between the two regions, and `masterAreaFactor`
is the master's share. Each region is then divided into equal slots along its own axis, or the region
is given whole to every window under `Monocle`. The stateful class has commands that change the
parameters or reorder the list, notifications that add or remove windows, and a reposition pass
that computes one rectangle per responsive list entry. It also renders a short status-bar symbol such
as `[]=`.

The Dafny modules follow the structure of the class:

- `Axes`: the `LayoutAxis` enumeration, its integer values and the toggle step.
- `Parameters`: the two numeric parameters, with their clamps and the 32-bit arithmetic of `int`.
- `WindowOrder`: the window list as a sequence, the linked-list primitives the class uses
  (`Find`, `AddFirst`, `AddAfter`, `AddBefore`, `Remove`) and the three reorderings.
- `Geometry`: the rectangles of a reposition pass as pure functions (`Layout`, `AreaPlacements`,
  `RegionOf`, `Slot`). Lemmas state what the pass guarantees: which windows are placed and where,
  containment in the working area, that no two rectangles overlap, and how the edges and the
  truncation remainders fall.
- `Symbol`: the layout symbol, with the decimal rendering of `int` it relies on.
- `Tiling`: the class `TileLayout` itself. Its fields are the program's fields. The window list is
  a `seq` field that the methods reassign, and every method states its whole new state. The ghost
  fields `lastBatch`, `repositions` and `notifications` record three things:
  - the rectangles each reposition pass submits;
  - how many passes ran;
  - how many layout-updated notifications were sent.

  The working area and the not-hung test are passed in as an `Env` value. `PositionAreaWindows` is
  written step by step, as the program is: the region from the layout axis, the first slot from the
  region axis, then a loop over the region's windows. It is proved equal to the `Geometry`
  specification.

Where the code and the system's documentation differ, the model follows the code:

- The stack region always receives the `1 - factor` share, even when the master region is empty
  (`Geometry.StackKeepsComplement`). `otherWindowsCount` is `-1` for the stack, so only the master's
  share is ever widened.
- The remainder of the division of a region by its window count is not absorbed by the last
  window. It stays uncovered at the far end of the region (`Geometry.SlotsTile`).
- The slot count is the number of all windows of the region, hung ones included. A hung window is
  skipped without taking a slot, so the gap moves to the end.
- The window list is not kept free of duplicates: `WindowCreated` and `WindowRestored` prepend
  unconditionally. Lemmas that need distinct windows say so in their `requires`.
- The master symbol is joined to the stack symbol by a single bracket, not wrapped in a pair.

## Model

| member | source | states |
|---|---|---|
| Axes.Ordinal | src/TileLayout/TileLayout.cs:10-17 | every axis has an integer value below the member count of five |
| Axes.FromOrdinal | src/TileLayout/TileLayout.cs:64 | the cast of an in-range integer gives the member with that value |
| Axes.Next | src/TileLayout/TileLayout.cs:64 | no contract; the toggle step (the value plus one, cast back for the five members), characterised by Axes.NextChanges, Axes.ToggledOrdinal and Axes.ToggleCycle |
| Axes.OrdinalRoundTrip | src/TileLayout/TileLayout.cs:10-17 | converting an axis to its value and back gives it again, and conversely |
| Axes.NextChanges | src/TileLayout/TileLayout.cs:62-75 | a toggle always changes the axis and adds one to its value modulo five |
| Axes.ToggledOrdinal | src/TileLayout/TileLayout.cs:62-75 | k toggles add k to the value modulo five |
| Axes.ToggleCycle | src/TileLayout/TileLayout.cs:62-75 | five toggles return to the starting axis, and no smaller positive number of toggles does |
| Parameters.Wrap32 | src/TileLayout/TileLayout.cs:54 | unchecked int arithmetic: the result is congruent to the exact value modulo 2^32, and equal to it when it fits |
| Parameters.ClampFactor | src/TileLayout/TileLayout.cs:32-40 | the clamped factor lies in [0, 1] and a factor already in range is kept |
| Parameters.ClampFactorNearest | src/TileLayout/TileLayout.cs:151-159 | the clamp picks the point of [0, 1] nearest to the unclamped sum |
| Parameters.ClampFactorIdempotent | src/TileLayout/TileLayout.cs:151-159 | clamping twice is clamping once |
| Parameters.FactorStaysAtBound | src/TileLayout/TileLayout.cs:149-162 | once at 1 (or 0), further steps towards that bound keep the factor there |
| Parameters.FactorConverges | src/TileLayout/TileLayout.cs:149-162 | k equal positive steps whose sum reaches 1 - factor end at exactly 1; negative steps reaching -factor end at 0 |
| Parameters.AddCount | src/TileLayout/TileLayout.cs:52-58 | the count stays non-negative: it is the sum clamped at zero when the sum fits in an int, and zero when the 32-bit addition overflows |
| Parameters.ClampCount | src/TileLayout/TileLayout.cs:41-45 | the constructor's count is never negative, and a non-negative argument is kept |
| Parameters.ClampCountNearest | src/TileLayout/TileLayout.cs:41-45 | the clamped count is the non-negative count nearest to the argument |
| Parameters.RepeatAddCountNonNegative | src/TileLayout/TileLayout.cs:52-60 | no sequence of count changes makes the count negative |
| WindowOrder.IndexOf | src/TileLayout/TileLayout.cs:117 | Find returns the first node holding the window: it holds it and no earlier node does |
| WindowOrder.IndexOfUnique | src/TileLayout/TileLayout.cs:117 | that first position is the only one holding the window with none before it |
| WindowOrder.Take | src/TileLayout/TileLayout.cs:168 | Take of a non-negative count keeps the first min(n, length) windows of the list, each at its own position |
| WindowOrder.Skip | src/TileLayout/TileLayout.cs:168 | Skip leaves exactly what Take keeps: the two put back together give the list |
| WindowOrder.RemoveFirst | src/TileLayout/TileLayout.cs:347 | Remove(window) shortens the list by one when the window is in it and leaves the length otherwise; which node goes is RemoveFirstAt |
| WindowOrder.RemoveFirstAt | src/TileLayout/TileLayout.cs:347 | Remove(window) removes exactly the node Find would return, and leaves a list without the window unchanged |
| WindowOrder.RemoveFirstMultiset | src/TileLayout/TileLayout.cs:368 | removal takes away one copy of the window if there is one and keeps every other window |
| WindowOrder.NoDuplicatesCount | src/TileLayout/TileLayout.cs:23 | a list without duplicates holds each of its windows exactly once and no other window |
| WindowOrder.RemoveFirstNoDuplicates | src/TileLayout/TileLayout.cs:347 | on a list without duplicates, removal leaves no copy, no duplicates and exactly the other windows |
| WindowOrder.RemoveAfterPrepend | src/TileLayout/TileLayout.cs:351-373 | adding a window first and then removing it gives back the list |
| WindowOrder.AddAfterNextThenRemove | src/TileLayout/TileLayout.cs:117-119 | adding the window after the successor's node and removing its own node exchanges it with its successor |
| WindowOrder.AddBeforePreviousThenRemove | src/TileLayout/TileLayout.cs:129-131 | adding the window before the predecessor's node and removing its own node exchanges it with its predecessor |
| WindowOrder.RemoveThenAddFirst | src/TileLayout/TileLayout.cs:141-143 | removing the found node and adding it first gives the window followed by the list without its first occurrence |
| WindowOrder.MoveToNext | src/TileLayout/TileLayout.cs:113-123 | no contract beyond the guard that the window is present when the shift happens; characterised by WindowOrder.MoveToNextSwaps, NextThenPrevious and MovesKeepNoDuplicates |
| WindowOrder.MoveToPrevious | src/TileLayout/TileLayout.cs:125-135 | no contract beyond the guard that the window is present when the shift happens; characterised by WindowOrder.MoveToPreviousSwaps, PreviousThenNext and MovesKeepNoDuplicates |
| WindowOrder.MoveToHead | src/TileLayout/TileLayout.cs:137-147 | no contract beyond the guard that the window is present when the move happens; characterised by WindowOrder.MoveToHeadOrder, MoveToHeadIdempotent and MovesKeepNoDuplicates |
| WindowOrder.MoveToNextSwaps | src/TileLayout/TileLayout.cs:113-123 | shifting forward exchanges the window with its successor, keeps every other position and loses nothing |
| WindowOrder.MoveToPreviousSwaps | src/TileLayout/TileLayout.cs:125-135 | shifting back exchanges the window with its predecessor, keeps every other position and loses nothing |
| WindowOrder.NextThenPrevious | src/TileLayout/TileLayout.cs:113-135 | on a list without duplicates, a forward shift that happens is undone by a backward shift |
| WindowOrder.PreviousThenNext | src/TileLayout/TileLayout.cs:113-135 | on a list without duplicates, a backward shift that happens is undone by a forward shift |
| WindowOrder.MoveToHeadOrder | src/TileLayout/TileLayout.cs:137-147 | moving to the main position puts the window first, keeps the others in their order and loses nothing |
| WindowOrder.MoveToHeadIdempotent | src/TileLayout/TileLayout.cs:137-147 | moving the same window to the main position twice is moving it once |
| WindowOrder.MovesKeepNoDuplicates | src/TileLayout/TileLayout.cs:113-147 | the three shifts keep a list free of duplicates |
| Geometry.Filter | src/TileLayout/TileLayout.cs:228 | Where keeps only windows of the list that pass the test, and no more of them than there were |
| Geometry.FilterCount | src/TileLayout/TileLayout.cs:228 | Where keeps every copy of a window that passes the test and none of one that does not |
| Geometry.FilterAppend | src/TileLayout/TileLayout.cs:228 | filtering a concatenation is concatenating the filtered parts |
| Geometry.RegionWindows | src/TileLayout/TileLayout.cs:168 | no contract; Take of the master count for the master area and Skip of it for the stack |
| Geometry.RegionRect | src/TileLayout/TileLayout.cs:176-197 | requires a share in [0, 1]; no further contract; characterised by Geometry.RegionInside, RegionPlacement and MonocleLayoutFullArea |
| Geometry.RegionOf | src/TileLayout/TileLayout.cs:168-197 | requires a factor in [0, 1]; no further contract; RegionRect with the share of lines 172-173, characterised by Geometry.StackKeepsComplement, MasterAloneFillsArea and RegionsSplitArea |
| Geometry.Slot | src/TileLayout/TileLayout.cs:198-250 | requires a positive count; no further contract; characterised by Geometry.SlotInside, SlotsDisjoint and SlotsTile |
| Geometry.Placements | src/TileLayout/TileLayout.cs:228-251 | requires a positive count; no further contract; the i-th live window in the i-th slot, characterised by Geometry.PlacementsTargets and computed step by step by Tiling.PlaceWindows |
| Geometry.AreaPlacements | src/TileLayout/TileLayout.cs:166-251 | requires a factor in [0, 1]; no further contract; one region's batch, characterised by Geometry.AreaPlacementsTargets, AreaPlacementsInside, AreaPlacementsDisjoint and MonocleRegionFullRect, and computed step by step by Tiling.TileLayout.PositionAreaWindows |
| Geometry.Layout | src/TileLayout/TileLayout.cs:272-279 | requires a factor in [0, 1]; no further contract; master batch then stack batch, characterised by Geometry.LayoutTargets, LayoutTargetsOnce, LayoutInside and LayoutDisjoint |
| Geometry.Scaled | src/TileLayout/TileLayout.cs:182 | the truncated share of an extent is at most the extent |
| Geometry.ScaledSplit | src/TileLayout/TileLayout.cs:172-186 | the truncated master and stack shares add up to the extent, less at most one pixel |
| Geometry.RegionInside | src/TileLayout/TileLayout.cs:179-197 | every region lies inside the working area |
| Geometry.RegionPlacement | src/TileLayout/TileLayout.cs:179-197 | along a directional layout axis the region has the truncated share of the extent and lies at the start edge (master of a forward axis, stack of a reverse one) or the end edge (otherwise); across the axis it spans the area |
| Geometry.MonocleLayoutFullArea | src/TileLayout/TileLayout.cs:176-197 | with a Monocle layout axis both regions are the whole working area |
| Geometry.StackKeepsComplement | src/TileLayout/TileLayout.cs:172-173 | along a directional layout axis the stack region always has the truncated 1 - factor share, even when the master region is empty |
| Geometry.MasterAloneFillsArea | src/TileLayout/TileLayout.cs:172-173 | when no window is left for the stack, the master region is the whole working area whatever the factor |
| Geometry.RegionsSplitArea | src/TileLayout/TileLayout.cs:172-197 | with windows in both regions and a directional layout axis, the regions do not overlap, lie in the area and leave at most one pixel of it uncovered |
| Geometry.SlotInside | src/TileLayout/TileLayout.cs:198-250 | every slot lies inside its region |
| Geometry.SlotsDisjoint | src/TileLayout/TileLayout.cs:198-250 | distinct slots of a directional region axis do not overlap |
| Geometry.SlotsTile | src/TileLayout/TileLayout.cs:198-250 | slots have size extent / count and span the region across the axis. The first starts at the start edge (forward axis) or ends at the end edge (reverse axis). Each next slot follows without a gap, and the extent % count remainder stays uncovered at the far end |
| Geometry.PlacementsTargets | src/TileLayout/TileLayout.cs:228-234 | the i-th placement of a region is for its i-th live window |
| Geometry.AreaPlacementsTargets | src/TileLayout/TileLayout.cs:166-251 | one region's batch places exactly its windows that are not hung, in list order |
| Geometry.LayoutTargets | src/TileLayout/TileLayout.cs:272-279 | a pass gives every entry of the list that is not hung one rectangle, in list order, and none to a hung entry |
| Geometry.LayoutTargetsOnce | src/TileLayout/TileLayout.cs:272-279 | on a list without duplicates, each window that is not hung gets exactly one rectangle and every other window none |
| Geometry.AreaPlacementsInside | src/TileLayout/TileLayout.cs:198-251 | every rectangle of a region's batch lies inside that region |
| Geometry.AreaPlacementsDisjoint | src/TileLayout/TileLayout.cs:198-251 | with a directional region axis, no two rectangles of one region overlap |
| Geometry.MonocleRegionFullRect | src/TileLayout/TileLayout.cs:198-251 | with a Monocle region axis every window of the region gets the whole region |
| Geometry.LayoutInside | src/TileLayout/TileLayout.cs:272-279 | every rectangle of a pass lies inside the working area |
| Geometry.MasterStackDisjoint | src/TileLayout/TileLayout.cs:166-251 | with a directional layout axis no master rectangle overlaps a stack rectangle |
| Geometry.LayoutDisjoint | src/TileLayout/TileLayout.cs:272-279 | with a directional layout axis no two rectangles of a pass overlap, as long as each region has a directional axis or at most one window (so under the default parameters too) |
| Geometry.DefaultLayoutExample | src/TileLayout/TileLayout.cs:166-255 | with the default parameters on a 1000 x 1000 area, windows C, B, A get the 600-pixel master column and two 400 x 500 stack rows |
| Symbol.NatToStringDigits | src/TileLayout/TileLayout.cs:287 | the decimal rendering of a natural number is a non-empty digit string without a leading zero whose value is the number |
| Symbol.IntToStringRoundTrip | src/TileLayout/TileLayout.cs:268 | the rendering of an int is a well-formed decimal that parses back to the int |
| Symbol.AreaSymbol | src/TileLayout/TileLayout.cs:257-270 | no contract; GetAreaSymbol, characterised by Symbol.AreaSymbolShape |
| Symbol.AreaSymbolShape | src/TileLayout/TileLayout.cs:257-270 | an area shows a bar for a horizontal axis, an equals sign for a vertical one, and its count (parsing back to the count) under Monocle; never the "[]" placeholder |
| Symbol.CountShown | src/TileLayout/TileLayout.cs:291 | the number of counted windows is at most the number of windows |
| Symbol.MasterCount | src/TileLayout/TileLayout.cs:291 | no contract; the shown windows among the first masterAreaWindowsCount, bounded in Symbol.SymbolCounts |
| Symbol.StackCount | src/TileLayout/TileLayout.cs:292 | no contract; windowsCount less the master count in 32-bit arithmetic, characterised by Symbol.SymbolCounts |
| Symbol.Render | src/TileLayout/TileLayout.cs:283-311 | no contract; the symbol of the given parameters, characterised by Symbol.SymbolShape and Symbol.DefaultSymbol |
| Symbol.Join | src/TileLayout/TileLayout.cs:300-308 | requires a layout axis other than Monocle, as the Monocle return at 285-288 guarantees; no further contract; characterised by Symbol.JoinShape |
| Symbol.SymbolCounts | src/TileLayout/TileLayout.cs:291-292 | the master count is at most the window count and the master capacity; for a non-negative windowsCount the stack count is the plain difference |
| Symbol.SymbolShape | src/TileLayout/TileLayout.cs:283-311 | "[N]" under a Monocle layout axis. Otherwise the "[]" placeholder beside the stack symbol while there is at most one master window, else the master symbol joined to the stack symbol by one bracket. The master comes first for a forward layout axis |
| Symbol.JoinShape | src/TileLayout/TileLayout.cs:300-308 | the placeholder is joined to the stack symbol without a bracket; any other master symbol is joined by one bracket, on the master's side towards the stack |
| Symbol.DefaultSymbol | src/TileLayout/TileLayout.cs:283-311 | the default parameters show "[]=" whatever the windows |
| Tiling.TileLayout.constructor | src/TileLayout/TileLayout.cs:26-48 | the axes are taken as given, the factor and the count are clamped, the list is empty and nothing has been submitted |
| Tiling.TileLayout.AddToMasterAreaWindowsCount | src/TileLayout/TileLayout.cs:52-60 | the new count is the 32-bit sum clamped at zero; the current layout is submitted |
| Tiling.TileLayout.ToggleLayoutAxis | src/TileLayout/TileLayout.cs:62-65 | the layout axis becomes the next member, which always differs, so the layout is submitted and a notification sent |
| Tiling.TileLayout.ToggleMasterAreaAxis | src/TileLayout/TileLayout.cs:67-70 | the master-area axis becomes the next member; the layout is submitted and a notification sent |
| Tiling.TileLayout.ToggleStackAreaAxis | src/TileLayout/TileLayout.cs:72-75 | the stack-area axis becomes the next member; the layout is submitted and a notification sent |
| Tiling.TileLayout.SetLayoutAxis | src/TileLayout/TileLayout.cs:77-87 | the layout axis is set; only a real change submits the layout and notifies, otherwise nothing else changes |
| Tiling.TileLayout.SetMasterAreaAxis | src/TileLayout/TileLayout.cs:89-99 | the master-area axis is set; only a real change submits the layout and notifies |
| Tiling.TileLayout.SetStackAreaAxis | src/TileLayout/TileLayout.cs:101-111 | the stack-area axis is set; only a real change submits the layout and notifies |
| Tiling.TileLayout.ShiftWindowToNextPosition | src/TileLayout/TileLayout.cs:113-123 | the list becomes the window exchanged with its successor when there are several windows and it is not last, and is unchanged otherwise; the layout is submitted exactly in the first case |
| Tiling.TileLayout.ShiftWindowToPreviousPosition | src/TileLayout/TileLayout.cs:125-135 | the list becomes the window exchanged with its predecessor when there are several windows and it is not first; the layout is submitted exactly then |
| Tiling.TileLayout.ShiftWindowToMainPosition | src/TileLayout/TileLayout.cs:137-147 | the window moves to the front, the others keeping their order, when there are several windows and it is not first; the layout is submitted exactly then |
| Tiling.TileLayout.AddToMasterAreaFactor | src/TileLayout/TileLayout.cs:149-162 | the new factor is the sum clamped into [0, 1]; the layout is submitted |
| Tiling.TileLayout.PositionAreaWindows | src/TileLayout/TileLayout.cs:166-255 | the step-by-step computation yields exactly the region's specified placements |
| Tiling.TileLayout.Reposition | src/TileLayout/TileLayout.cs:272-279 | the batch submitted is the master placements followed by the stack placements of the current state |
| Tiling.TileLayout.LayoutSymbol | src/TileLayout/TileLayout.cs:283-311 | no contract; Symbol.Render of the fields, shape in Symbol.SymbolShape |
| Tiling.TileLayout.LayoutName | src/TileLayout/TileLayout.cs:313-316 | the layout is called "Tile" |
| Tiling.TileLayout.ShouldRestoreSharedWindowsPosition | src/TileLayout/TileLayout.cs:318-321 | shared windows' positions are never restored |
| Tiling.TileLayout.RepositionWindows | src/TileLayout/TileLayout.cs:323-335 | a reported list of a different size or set of windows replaces the list in its order; otherwise the own order is kept; either way the list then has the reported size and windows, and the layout is submitted |
| Tiling.TileLayout.WindowTitlebarToggled | src/TileLayout/TileLayout.cs:337-339 | nothing changes |
| Tiling.TileLayout.WindowBorderToggled | src/TileLayout/TileLayout.cs:341-343 | nothing changes |
| Tiling.TileLayout.WindowMinimized | src/TileLayout/TileLayout.cs:345-349 | the first occurrence of the window leaves the list (none if absent) and the layout is submitted |
| Tiling.TileLayout.WindowRestored | src/TileLayout/TileLayout.cs:351-355 | the window is added first and the layout is submitted |
| Tiling.TileLayout.WindowCreated | src/TileLayout/TileLayout.cs:357-364 | the window is added first; the layout is submitted exactly when a re-layout is asked for |
| Tiling.TileLayout.WindowDestroyed | src/TileLayout/TileLayout.cs:366-373 | the first occurrence of the window leaves the list; the layout is submitted exactly when a re-layout is asked for |
| Tiling.AreaRegion | src/TileLayout/TileLayout.cs:172-197 | the origin and size computed from the layout axis are the specified region |
| Tiling.FirstSlot | src/TileLayout/TileLayout.cs:198-226 | the adjustments by the region axis yield the region's first slot |
| Tiling.SlotStep | src/TileLayout/TileLayout.cs:236-250 | each slot is the previous one moved by its own size along the region axis, not at all under Monocle |
| Tiling.PlaceWindows | src/TileLayout/TileLayout.cs:228-251 | the loop gives the i-th live window the i-th slot of a division by the number of all the region's windows |
| Tiling.BatchTargets | src/TileLayout/TileLayout.cs:272-279 | from any valid state, a pass gives every entry of the list that is not hung one rectangle, in order; on a list without duplicates each window that is not hung gets exactly one and every other window none |
| Tiling.BatchInside | src/TileLayout/TileLayout.cs:272-279 | from any valid state, every rectangle of a pass lies inside the working area |
| Tiling.BatchDisjoint | src/TileLayout/TileLayout.cs:272-279 | from a valid state with a directional layout axis, and each region either directional or holding at most one window, no two rectangles of a pass overlap |
| Tiling.CreateThenDestroy | src/TileLayout/TileLayout.cs:357-373 | creating a window and then destroying it leaves the list as it was |
| Tiling.RestoreThenMinimize | src/TileLayout/TileLayout.cs:345-355 | restoring a window and then minimising it leaves the list as it was |
| Tiling.ShiftNextThenPrevious | src/TileLayout/TileLayout.cs:113-135 | on a list without duplicates, shifting a window that is not last forward and back leaves the list as it was |
| Tiling.DefaultScenario | src/TileLayout/TileLayout.cs:26-48 | a default layout told of three windows submits the 600-pixel master column and two stack rows |

## Left out

- DeferWindowPos, BeginDeferWindowPos, EndDeferWindowPos and the SWP flags are Win32 calls. A pass is modelled as the batch of (window, rectangle) pairs it would submit (the ghost `lastBatch`).
- `SystemInformation.WorkingArea` and `Windawesome.WindowIsNotHung` read the live system. They are parameters of each repositioning method (`Env`). The not-hung test is taken to give the same answer for a window throughout one pass.
- `Windawesome.DoLayoutUpdated` is another component's notification; the model counts the calls (the ghost `notifications`).
- The `ShowWindowAsync` calls and the `Thread.Sleep` in `ILayout.Reposition` act on the windows and the clock only, so they are not modelled.
- `masterAreaFactor` is a `double`; the model uses exact reals. IEEE rounding of `eachWidth * factor`, the drift of repeated `+= 0.05` steps, NaN and infinite arguments are not modelled.
- Rectangle coordinates and `Right`/`Bottom` are unbounded integers, and widths and heights are non-negative. A working area whose `Right` overflows an `int`, or whose size is negative, is not modelled.
- `int.ToString` is modelled for the invariant culture: a minus sign and ASCII digits.
- Windows are compared as values. The program's comparisons are of two kinds: the `!=` of the shift guards, and the `Equals` used by `Find`, `Remove` and the `HashSet`. Both are modelled as this one value equality. The `Window` class is not part of this model.
- Tiling.TileLayout.ShiftWindowToNextPosition, ShiftWindowToPreviousPosition and ShiftWindowToMainPosition: when the guard holds but the window is not in the list, `Find` returns null and the program fails. The model requires the window to be present in that case rather than modelling the exception.
- Tiling.TileLayout.LayoutSymbol: the program throws after its switch when the layout axis is not directional. That point is unreachable for the five named members because `Monocle` returns first, so the model has no error path there.
- `LayoutAxis` is an open C# enumeration: an integer outside 0..4 cast to it (the constructor and the Set*Axis methods accept any value) would reach the throw at the end of `LayoutSymbol` and be treated like `Monocle` by every switch of `PositionAreaWindows` and by `GetAreaSymbol`. `Axes.Axis` is closed over the five named members, so such values are not modelled.
- src/Windawesome/WorkspacesWidget.cs is not part of this model: it only displays the symbol.
