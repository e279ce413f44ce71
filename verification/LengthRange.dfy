/** Ranges of phrase lengths (src/netspeak/model/LengthRange.hpp and .cpp). */
module LengthRanges {
  import opened MachineInts

  /** A set of lengths: none, or the interval from min to max. UINT32_MAX as max means unbounded. */
  datatype Range = NoLength | Range(min: nat, max: nat)

  /** The lengths of a concatenation. */
  function CatRange(a: Range, b: Range): Range
  {
    if a.NoLength? || b.NoLength? then NoLength
    else Range(a.min + b.min, if a.max == UINT32_MAX || b.max == UINT32_MAX then UINT32_MAX else a.max + b.max)
  }

  /** The smallest interval around two ranges. */
  function UniteRange(a: Range, b: Range): Range
  {
    if a.NoLength? then b
    else if b.NoLength? then a
    else Range(Min(a.min, b.min), Max(a.max, b.max))
  }

  lemma CatRangeAssoc(a: Range, b: Range, c: Range)
    requires !a.NoLength? && !b.NoLength? ==> a.max == UINT32_MAX || b.max == UINT32_MAX || a.max + b.max < UINT32_MAX
    requires !b.NoLength? && !c.NoLength? ==> b.max == UINT32_MAX || c.max == UINT32_MAX || b.max + c.max < UINT32_MAX
    ensures CatRange(CatRange(a, b), c) == CatRange(a, CatRange(b, c))
  {
  }

  class LengthRange {
    var min: uint32
    var max: uint32

    /** The range this object stands for; max is meaningless when min is UINT32_MAX. */
    ghost function Value(): Range
      reads this
    {
      if min == UINT32_MAX then NoLength else Range(min, max)
    }

    constructor Empty()
      ensures Value() == NoLength
    {
      min, max := UINT32_MAX, 0;
    }

    constructor Between(min: uint32, max: uint32)
      ensures this.min == min && this.max == max
    {
      this.min, this.max := min, max;
    }

    predicate IsEmpty()
      reads this
    {
      min == UINT32_MAX
    }

    /** `operator&=`: concatenation. The caller keeps the sums below UINT32_MAX. */
    method Append(rhs: LengthRange)
      requires this != rhs
      requires !IsEmpty() && !rhs.IsEmpty() ==> min + rhs.min < UINT32_MAX
      requires !IsEmpty() && !rhs.IsEmpty() && max != UINT32_MAX && rhs.max != UINT32_MAX ==> max + rhs.max < UINT32_MAX
      modifies this
      ensures Value() == CatRange(old(Value()), rhs.Value())
    {
      if IsEmpty() {
        return;
      }
      if rhs.IsEmpty() {
        min := UINT32_MAX;
        return;
      }
      if max == UINT32_MAX {
        min := min + rhs.min;
        return;
      }
      if rhs.max == UINT32_MAX {
        min := min + rhs.min;
        max := UINT32_MAX;
        return;
      }
      min := min + rhs.min;
      max := max + rhs.max;
    }

    /** `operator|=`: union. */
    method Unite(rhs: LengthRange)
      requires this != rhs
      modifies this
      ensures Value() == UniteRange(old(Value()), rhs.Value())
    {
      if rhs.IsEmpty() {
        return;
      }
      if IsEmpty() {
        min, max := rhs.min, rhs.max;
        return;
      }
      if rhs.min < min {
        min := rhs.min;
      }
      if rhs.max > max {
        max := rhs.max;
      }
    }
  }
}
