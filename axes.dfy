/** The orientation a tiling axis can take (TileLayout.LayoutAxis) and how the Toggle*Axis commands step through it. */
module Axes {

  /** The five named members of the enumeration; other integer values cast to LayoutAxis are not modelled. */
  datatype Axis = LeftToRight | RightToLeft | TopToBottom | BottomToTop | Monocle

  /** Number of members of the enumeration, as Enum.GetValues reports it. */
  const AxisCount: nat := 5

  /** The integer value of each member, in declaration order. */
  function Ordinal(a: Axis): (n: nat)
    ensures n < AxisCount
  {
    match a
    case LeftToRight => 0
    case RightToLeft => 1
    case TopToBottom => 2
    case BottomToTop => 3
    case Monocle => 4
  }

  /** The cast `(LayoutAxis) n` for an n that names a member. */
  function FromOrdinal(n: nat): (a: Axis)
    requires n < AxisCount
    ensures Ordinal(a) == n
  {
    if n == 0 then LeftToRight
    else if n == 1 then RightToLeft
    else if n == 2 then TopToBottom
    else if n == 3 then BottomToTop
    else Monocle
  }

  /** The axis a toggle moves to: the next ordinal, wrapping after the last member. */
  function Next(a: Axis): Axis
  {
    FromOrdinal((Ordinal(a) + 1) % AxisCount)
  }

  predicate IsHorizontal(a: Axis)
  {
    a == LeftToRight || a == RightToLeft
  }

  predicate IsVertical(a: Axis)
  {
    a == TopToBottom || a == BottomToTop
  }

  /** A directional axis runs from its end edge towards its start edge. */
  predicate IsReverse(a: Axis)
  {
    a == RightToLeft || a == BottomToTop
  }

  predicate IsDirectional(a: Axis)
  {
    a != Monocle
  }

  /** Ordinals identify members, so the cast back from an ordinal is its inverse. */
  lemma OrdinalRoundTrip(a: Axis, n: nat)
    requires n < AxisCount
    ensures FromOrdinal(Ordinal(a)) == a
    ensures Ordinal(FromOrdinal(n)) == n
  {
  }

  /** A toggle always changes the axis and adds one to the ordinal modulo the member count. */
  lemma NextChanges(a: Axis)
    ensures Next(a) != a
    ensures Ordinal(Next(a)) == (Ordinal(a) + 1) % AxisCount
  {
  }

  /** Applying the toggle k times. */
  function Toggled(a: Axis, k: nat): Axis
  {
    if k == 0 then a else Next(Toggled(a, k - 1))
  }

  /** k toggles advance the ordinal by k modulo the member count, so five toggles return to the start. */
  lemma {:induction false} ToggledOrdinal(a: Axis, k: nat)
    ensures Ordinal(Toggled(a, k)) == (Ordinal(a) + k) % AxisCount
  {
    if k > 0 {
      ToggledOrdinal(a, k - 1);
    }
  }

  lemma ToggleCycle(a: Axis)
    ensures Toggled(a, AxisCount) == a
    ensures forall k :: 0 < k < AxisCount ==> Toggled(a, k) != a
  {
    forall k | 0 <= k <= AxisCount
      ensures Ordinal(Toggled(a, k)) == (Ordinal(a) + k) % AxisCount
    {
      ToggledOrdinal(a, k);
    }
    OrdinalRoundTrip(a, 0);
    assert Ordinal(Toggled(a, AxisCount)) == Ordinal(a);
    assert FromOrdinal(Ordinal(Toggled(a, AxisCount))) == Toggled(a, AxisCount);
  }
}
