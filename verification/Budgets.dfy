/**
 The byte budget of the upload buffers, counted in permits of one unit each. The
 unit is a power of two, so every count is a shift.
 */
module Budgets {
  import opened Basics

  const MAX_UNIT: nat := 64 * 1024

  /** The position of the highest bit. */
  function Log2(n: nat): (k: nat)
    requires n >= 1
    ensures Pow2(k) <= n < 2 * Pow2(k)
  {
    if n == 1 then 0 else 1 + Log2(n / 2)
  }

  function TrailingZeros(n: nat): nat
    requires n >= 1
  {
    if n % 2 == 1 then 0 else 1 + TrailingZeros(n / 2)
  }

  lemma {:induction false} TrailingZerosOfPow2(k: nat)
    ensures TrailingZeros(Pow2(k)) == k
  {
    if k > 0 {
      TrailingZerosOfPow2(k - 1);
      assert Pow2(k) / 2 == Pow2(k - 1);
    }
  }

  function ShiftRight(n: nat, shift: nat): nat {
    DivMod(n, Pow2(shift));
    n / Pow2(shift)
  }

  /** `bytes >> shift`, and one more if the mask finds a remainder. */
  function UnitsCeil(bytes: nat, shift: nat): nat {
    Ceil(bytes, Pow2(shift))
  }

  function Ceil(bytes: nat, unit: nat): nat
    requires unit >= 1
  {
    bytes / unit + (if bytes % unit != 0 then 1 else 0)
  }

  lemma CeilCovers(bytes: nat, unit: nat)
    requires unit >= 1
    ensures bytes <= Ceil(bytes, unit) * unit < bytes + unit
  {
    var whole, rest := bytes / unit, bytes % unit;
    assert bytes == whole * unit + rest;
    assert (whole + 1) * unit == whole * unit + unit;
  }

  lemma MoreUnits(a: nat, b: nat, unit: nat)
    requires a > b
    ensures a * unit >= b * unit + unit
  {
    var extra := a - b - 1;
    assert a * unit == b * unit + unit + extra * unit;
  }

  lemma SomeUnits(a: nat, unit: nat)
    requires a * unit >= 1
    ensures a >= 1
  {
  }

  /** The unit is the power of two at or below 1/256 of a part, at most 64 KiB. */
  function Shift(partSize: nat): nat {
    var target := Clamp(partSize / 256, 1, MAX_UNIT);
    Log2(target)
  }

  datatype Limits = Limits(unit: nat, partUnits: nat, totalUnits: nat)

  function Budget(partSize: nat, cap: nat): Limits {
    var shift := Shift(partSize);
    var partUnits := UnitsCeil(partSize, shift);
    Limits(Pow2(shift), partUnits, Total(ShiftRight(cap, shift), partUnits))
  }

  /** Permits for `bytes` of buffer: at least one, at most a part's. */
  function UnitsFor(bytes: nat, l: Limits): nat
    requires l.unit >= 1 && l.partUnits >= 1
  {
    Clamp(UnitsCeil(bytes, TrailingZeros(l.unit)), 1, l.partUnits)
  }

  /** The unit is the largest power of two that is at most 64 KiB and 1/256 of a part, or 1 if no power is. */
  lemma UnitIsLargest(partSize: nat, cap: nat)
    ensures var unit := Budget(partSize, cap).unit;
            && (exists k :: unit == Pow2(k)) && unit <= 0x1_0000
            && (unit == 1 || 256 * unit <= partSize)
            && (forall k :: Pow2(k) <= 0x1_0000 && 256 * Pow2(k) <= partSize ==> Pow2(k) <= unit)
  {
    var target, shift := Clamp(partSize / 256, 1, MAX_UNIT), Shift(partSize);
    assert Pow2(shift) <= target < 2 * Pow2(shift);
    assert Budget(partSize, cap).unit == Pow2(shift);
    forall k | Pow2(k) <= 0x1_0000 && 256 * Pow2(k) <= partSize
      ensures Pow2(k) <= Pow2(shift)
    {
      PowersAreApart(shift, k);
    }
  }

  /** No power of two lies between one and its double. */
  lemma {:induction false} PowersAreApart(a: nat, b: nat)
    ensures Pow2(b) < 2 * Pow2(a) ==> Pow2(b) <= Pow2(a)
  {
    if a > 0 && b > 0 {
      PowersAreApart(a - 1, b - 1);
    }
  }

  function Total(whole: nat, partUnits: nat): nat {
    if whole < partUnits then partUnits else whole
  }

  lemma PartFits(partSize: nat, cap: nat, unit: nat)
    requires 1 <= partSize && unit >= 1
    ensures 1 <= Ceil(partSize, unit)
    ensures cap < partSize ==> Total(cap / unit, Ceil(partSize, unit)) == Ceil(partSize, unit)
  {
    var partUnits, whole := Ceil(partSize, unit), cap / unit;
    CeilCovers(partSize, unit);
    SomeUnits(partUnits, unit);
    assert cap == whole * unit + cap % unit;
    if whole > partUnits {
      MoreUnits(whole, partUnits, unit);
    }
  }

  lemma CapFits(partSize: nat, cap: nat, unit: nat)
    requires 1 <= partSize <= cap && unit >= 1
    ensures cap - unit < Total(cap / unit, Ceil(partSize, unit)) * unit < cap + unit
  {
    var partUnits, whole := Ceil(partSize, unit), cap / unit;
    CeilCovers(partSize, unit);
    assert cap == whole * unit + cap % unit;
    if whole < partUnits {
      MoreUnits(partUnits, whole, unit);
    }
  }

  /** A part fits the budget, even one that the cap falls short of. */
  lemma BudgetHoldsAPart(partSize: nat, cap: nat)
    requires 1 <= partSize
    ensures var l := Budget(partSize, cap);
            && 1 <= l.partUnits <= l.totalUnits && l.unit >= 1
            && partSize <= l.partUnits * l.unit < partSize + l.unit
            && (cap < partSize ==> l.totalUnits == l.partUnits)
  {
    var unit := Pow2(Shift(partSize));
    CeilCovers(partSize, unit);
    PartFits(partSize, cap, unit);
  }

  /** The whole budget, in bytes, is within one unit of a cap of at least one part. */
  lemma BudgetFitsCap(partSize: nat, cap: nat)
    requires 1 <= partSize <= cap
    ensures var l := Budget(partSize, cap);
            cap - l.unit < l.totalUnits * l.unit < cap + l.unit
  {
    CapFits(partSize, cap, Pow2(Shift(partSize)));
  }

  /** A reservation covers any buffer of up to a part, and is never more than the budget. */
  lemma UnitsForCovers(bytes: nat, partSize: nat, cap: nat)
    requires 1 <= bytes <= partSize
    ensures var l := Budget(partSize, cap);
            && l.unit >= 1 && l.partUnits >= 1
            && 1 <= UnitsFor(bytes, l) <= l.partUnits <= l.totalUnits
            && bytes <= UnitsFor(bytes, l) * l.unit < bytes + l.unit
  {
    var l := Budget(partSize, cap);
    BudgetHoldsAPart(partSize, cap);
    TrailingZerosOfPow2(Shift(partSize));
    CeilCovers(bytes, l.unit);
    SomeUnits(Ceil(bytes, l.unit), l.unit);
    if Ceil(bytes, l.unit) > l.partUnits {
      MoreUnits(Ceil(bytes, l.unit), l.partUnits, l.unit);
    }
  }
}
