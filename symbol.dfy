/** The short text a tile layout shows for itself in the status bar (ILayout.LayoutSymbol),
    with the decimal rendering of int.ToString it relies on. */
module Symbol {
  import opened Axes
  import opened Parameters
  import opened WindowOrder

  predicate IsDigit(c: char)
  {
    '0' <= c <= '9'
  }

  predicate AllDigits(s: string)
  {
    forall k :: 0 <= k < |s| ==> IsDigit(s[k])
  }

  function DigitChar(d: nat): (c: char)
    requires d < 10
  {
    ('0' as int + d) as char
  }

  function DigitValue(c: char): (d: nat)
    requires IsDigit(c)
  {
    c as int - '0' as int
  }

  /** Decimal digits of n, most significant first, without leading zeros. */
  function NatToString(n: nat): (s: string)
    decreases n
  {
    if n < 10 then [DigitChar(n)] else NatToString(n / 10) + [DigitChar(n % 10)]
  }

  /** int.ToString with the invariant culture: a minus sign before the digits of a negative number. */
  function IntToString(i: int): string
  {
    if i < 0 then "-" + NatToString(-i) else NatToString(i)
  }

  /** The value of a string of decimal digits. */
  function DigitsValue(s: string): nat
    requires AllDigits(s)
  {
    if s == [] then 0 else 10 * DigitsValue(s[..|s| - 1]) + DigitValue(s[|s| - 1])
  }

  /** A well-formed decimal: an optional minus sign, then at least one digit, with no leading zero. */
  predicate IsDecimal(s: string)
  {
    var digits := if |s| > 0 && s[0] == '-' then s[1..] else s;
    |digits| > 0 && AllDigits(digits) && (digits[0] == '0' ==> |digits| == 1) &&
    (s != digits ==> digits != "0")
  }

  /** int.Parse of a well-formed decimal. */
  function ParseInt(s: string): (v: int)
    requires IsDecimal(s)
  {
    if s[0] == '-' then -(DigitsValue(s[1..]) as int) else DigitsValue(s)
  }

  lemma {:induction false} NatToStringDigits(n: nat)
    decreases n
    ensures var s := NatToString(n);
      |s| > 0 && AllDigits(s) && DigitsValue(s) == n && (s[0] == '0' ==> n == 0 && |s| == 1)
  {
    if n >= 10 {
      NatToStringDigits(n / 10);
      var s, prefix, last := NatToString(n), NatToString(n / 10), DigitChar(n % 10);
      assert s == prefix + [last];
      assert s[..|s| - 1] == prefix && s[|s| - 1] == last;
      assert DigitValue(last) == n % 10;
      assert s[0] == prefix[0];
    }
  }

  /** Rendering an int and parsing it back gives the int. */
  lemma IntToStringRoundTrip(i: int)
    ensures IsDecimal(IntToString(i))
    ensures ParseInt(IntToString(i)) == i
  {
    var s := IntToString(i);
    if i < 0 {
      var d := NatToString(-i);
      NatToStringDigits(-i);
      assert s == "-" + d && s[0] == '-' && s[1..] == d;
      assert d != "0";
    } else {
      var d := NatToString(i);
      NatToStringDigits(i);
      assert s == d && s[0] != '-';
    }
  }

  /** GetAreaSymbol: a bar for a horizontal axis, an equals sign for a vertical one, the count under Monocle. */
  function AreaSymbol(count: int, axis: Axis): string
  {
    match axis
    case LeftToRight | RightToLeft => "|"
    case TopToBottom | BottomToTop => "="
    case Monocle => IntToString(count)
  }

  /** Which of the three symbols an area shows, and that each of them differs from the "[]" placeholder. */
  lemma AreaSymbolShape(count: int, axis: Axis)
    ensures IsHorizontal(axis) ==> AreaSymbol(count, axis) == "|"
    ensures IsVertical(axis) ==> AreaSymbol(count, axis) == "="
    ensures axis == Monocle ==> IsDecimal(AreaSymbol(count, axis)) && ParseInt(AreaSymbol(count, axis)) == count
    ensures AreaSymbol(count, axis) != "[]"
  {
    IntToStringRoundTrip(count);
  }

  /** Enumerable.Count(w => w.ShowInTabs). */
  function CountShown(s: seq<Window>): (n: nat)
    ensures n <= |s|
  {
    if s == [] then 0 else (if s[0].showInTabs then 1 else 0) + CountShown(s[1..])
  }

  /** The number of counted windows among the first masterAreaWindowsCount. */
  function MasterCount(windows: seq<Window>, masterAreaWindowsCount: nat): nat
  {
    CountShown(Take(windows, masterAreaWindowsCount))
  }

  /** The rest of windowsCount, in 32-bit arithmetic. */
  function StackCount(windows: seq<Window>, masterAreaWindowsCount: nat, windowsCount: Int32): Int32
  {
    Wrap32(windowsCount - MasterCount(windows, masterAreaWindowsCount))
  }

  /** ILayout.LayoutSymbol for the given parameters, window list and number of shown windows. */
  function Render(layoutAxis: Axis, masterAreaAxis: Axis, stackAreaAxis: Axis, masterAreaWindowsCount: nat,
                  windows: seq<Window>, windowsCount: Int32): string
  {
    if layoutAxis == Monocle then "[" + IntToString(windowsCount) + "]"
    else
      var masterCount := MasterCount(windows, masterAreaWindowsCount);
      var stackCount := StackCount(windows, masterAreaWindowsCount, windowsCount);
      var master := if masterAreaWindowsCount > 1 then AreaSymbol(masterCount, masterAreaAxis) else "[]";
      var stack := AreaSymbol(stackCount, stackAreaAxis);
      Join(layoutAxis, master, stack)
  }

  /** The final switch of LayoutSymbol: a bracket between the two symbols unless the master shows the
      placeholder, master first for a forward layout axis. */
  function Join(layoutAxis: Axis, master: string, stack: string): string
    requires layoutAxis != Monocle
  {
    match layoutAxis
    case LeftToRight | TopToBottom => master + (if master == "[]" then "" else "]") + stack
    case RightToLeft | BottomToTop => stack + (if master == "[]" then "" else "[") + master
  }

  lemma JoinShape(layoutAxis: Axis, master: string, stack: string)
    requires layoutAxis != Monocle
    ensures master == "[]" ==> Join(layoutAxis, master, stack) == if IsReverse(layoutAxis) then stack + "[]" else "[]" + stack
    ensures master != "[]" ==>
      Join(layoutAxis, master, stack) == if IsReverse(layoutAxis) then stack + "[" + master else master + "]" + stack
  {
    assert stack + "" + "[]" == stack + "[]" && "[]" + "" + stack == "[]" + stack;
  }

  /** The counts the symbol shows: the master count is at most the window count and the master capacity,
      and for a non-negative windowsCount the stack count is the plain difference, which may be negative. */
  lemma SymbolCounts(windows: seq<Window>, masterAreaWindowsCount: nat, windowsCount: Int32)
    requires masterAreaWindowsCount <= Int32Max
    ensures MasterCount(windows, masterAreaWindowsCount) <= |windows|
    ensures MasterCount(windows, masterAreaWindowsCount) <= masterAreaWindowsCount
    ensures windowsCount >= 0 ==>
      StackCount(windows, masterAreaWindowsCount, windowsCount) == windowsCount - MasterCount(windows, masterAreaWindowsCount)
  {
  }

  /** The shape of the symbol: the bracketed window count under a Monocle layout axis; otherwise the
      "[]" placeholder beside the stack symbol while there is at most one master window, and else the
      master symbol joined to the stack symbol by a single bracket, master first for a forward layout axis. */
  lemma SymbolShape(layoutAxis: Axis, masterAreaAxis: Axis, stackAreaAxis: Axis, masterAreaWindowsCount: nat,
                    windows: seq<Window>, windowsCount: Int32)
    ensures var r := Render(layoutAxis, masterAreaAxis, stackAreaAxis, masterAreaWindowsCount, windows, windowsCount);
      var master := AreaSymbol(MasterCount(windows, masterAreaWindowsCount), masterAreaAxis);
      var stack := AreaSymbol(StackCount(windows, masterAreaWindowsCount, windowsCount), stackAreaAxis);
      if layoutAxis == Monocle then r == "[" + IntToString(windowsCount) + "]"
      else if masterAreaWindowsCount <= 1 then
        r == if IsReverse(layoutAxis) then stack + "[]" else "[]" + stack
      else
        r == if IsReverse(layoutAxis) then stack + "[" + master else master + "]" + stack
  {
    if layoutAxis != Monocle {
      var stack := AreaSymbol(StackCount(windows, masterAreaWindowsCount, windowsCount), stackAreaAxis);
      var masterCount := MasterCount(windows, masterAreaWindowsCount);
      var master := AreaSymbol(masterCount, masterAreaAxis);
      AreaSymbolShape(masterCount, masterAreaAxis);
      JoinShape(layoutAxis, if masterAreaWindowsCount > 1 then master else "[]", stack);
    }
  }

  /** The default parameters show "[]=", whatever the windows. */
  lemma DefaultSymbol(windows: seq<Window>, windowsCount: Int32)
    ensures Render(LeftToRight, Monocle, TopToBottom, 1, windows, windowsCount) == "[]="
  {
  }
}
