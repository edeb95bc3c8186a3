/** The two numeric layout parameters: the master-area factor and the master-area window count.
    Both are clamped into range on every change, never rejected. */
module Parameters {

  const Int32Min: int := -0x8000_0000
  const Int32Max: int := 0x7fff_ffff

  /** The C# `int` type. */
  type Int32 = x: int | -0x8000_0000 <= x <= 0x7fff_ffff

  /** Unchecked 32-bit two's-complement arithmetic: the value of range congruent to v modulo 2^32. */
  function Wrap32(v: int): (r: Int32)
    ensures (r - v) % 0x1_0000_0000 == 0
    ensures Int32Min <= v <= Int32Max ==> r == v
  {
    (v - Int32Min) % 0x1_0000_0000 + Int32Min
  }

  function Max(a: int, b: int): int
  {
    if a < b then b else a
  }

  function Distance(a: real, b: real): real
  {
    if a < b then b - a else a - b
  }

  function IntDistance(a: int, b: int): int
  {
    if a < b then b - a else a - b
  }

  /** The clamp applied to masterAreaFactor by the constructor and by AddToMasterAreaFactor. */
  function ClampFactor(v: real): (r: real)
    ensures 0.0 <= r <= 1.0
    ensures 0.0 <= v <= 1.0 ==> r == v
  {
    if v > 1.0 then 1.0 else if v < 0.0 then 0.0 else v
  }

  /** The clamp picks the point of [0, 1] nearest to its argument. */
  lemma ClampFactorNearest(v: real)
    ensures forall c :: 0.0 <= c <= 1.0 ==> Distance(ClampFactor(v), v) <= Distance(c, v)
  {
  }

  /** Clamping twice is clamping once. */
  lemma ClampFactorIdempotent(v: real)
    ensures ClampFactor(ClampFactor(v)) == ClampFactor(v)
  {
  }

  /** The value of masterAreaFactor after k calls of AddToMasterAreaFactor with the same change. */
  function RepeatAddFactor(factor: real, change: real, k: nat): real
    decreases k
  {
    if k == 0 then factor else RepeatAddFactor(ClampFactor(factor + change), change, k - 1)
  }

  /** Once at a bound, further changes towards that bound keep it there. */
  lemma {:induction false} FactorStaysAtBound(change: real, k: nat)
    ensures change >= 0.0 ==> RepeatAddFactor(1.0, change, k) == 1.0
    ensures change <= 0.0 ==> RepeatAddFactor(0.0, change, k) == 0.0
  {
    if k > 0 {
      FactorStaysAtBound(change, k - 1);
    }
  }

  /** Enough positive steps drive the factor to 1; enough negative steps drive it to 0. */
  lemma {:induction false} FactorConverges(factor: real, change: real, k: nat)
    requires 0.0 <= factor <= 1.0
    decreases k
    ensures change > 0.0 && (k as real) * change >= 1.0 - factor ==> RepeatAddFactor(factor, change, k) == 1.0
    ensures change < 0.0 && (k as real) * change <= -factor ==> RepeatAddFactor(factor, change, k) == 0.0
  {
    if k > 0 {
      var next := ClampFactor(factor + change);
      assert ((k - 1) as real) * change == (k as real) * change - change;
      if change > 0.0 && (k as real) * change >= 1.0 - factor {
        if factor + change >= 1.0 {
          FactorStaysAtBound(change, k - 1);
        } else {
          FactorConverges(next, change, k - 1);
        }
      }
      if change < 0.0 && (k as real) * change <= -factor {
        if factor + change <= 0.0 {
          FactorStaysAtBound(change, k - 1);
        } else {
          FactorConverges(next, change, k - 1);
        }
      }
    }
  }

  /** masterAreaWindowsCount after `masterAreaWindowsCount += count` in unchecked 32-bit arithmetic,
      followed by the clamp to zero. */
  function AddCount(current: Int32, delta: Int32): (r: Int32)
    requires current >= 0
    ensures r >= 0
    ensures current + delta <= Int32Max ==> r == Max(0, current + delta)
    ensures current + delta > Int32Max ==> r == 0
  {
    var sum := Wrap32(current + delta);
    if sum < 0 then 0 else sum
  }

  /** The clamp the constructor applies to its masterAreaWindowsCount argument. */
  function ClampCount(v: Int32): (r: Int32)
    ensures r >= 0
    ensures v >= 0 ==> r == v
  {
    if v < 0 then 0 else v
  }

  /** The clamp picks the non-negative count nearest to its argument. */
  lemma ClampCountNearest(v: Int32, c: int)
    requires c >= 0
    ensures IntDistance(ClampCount(v), v) <= IntDistance(c, v)
  {
  }

  /** The count after AddToMasterAreaWindowsCount has been called with each of the deltas in turn. */
  function RepeatAddCount(current: Int32, deltas: seq<Int32>): Int32
    requires current >= 0
    decreases |deltas|
  {
    if deltas == [] then current else RepeatAddCount(AddCount(current, deltas[0]), deltas[1..])
  }

  /** Whatever the sequence of deltas, the count never becomes negative. */
  lemma {:induction false} RepeatAddCountNonNegative(current: Int32, deltas: seq<Int32>)
    requires current >= 0
    decreases |deltas|
    ensures RepeatAddCount(current, deltas) >= 0
  {
    if deltas != [] {
      RepeatAddCountNonNegative(AddCount(current, deltas[0]), deltas[1..]);
    }
  }
}
