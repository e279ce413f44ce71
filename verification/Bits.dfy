/** The bit operations of the program on natural numbers, and the two bit tricks that the hash table needs. */
module Bits {
  import opened Combinatorics
  import opened MachineInts

  function Or(a: nat, b: nat): nat
  {
    if a == 0 then b
    else if b == 0 then a
    else 2 * Or(a / 2, b / 2) + if a % 2 == 1 || b % 2 == 1 then 1 else 0
  }

  function And(a: nat, b: nat): nat
  {
    if a == 0 || b == 0 then 0
    else 2 * And(a / 2, b / 2) + if a % 2 == 1 && b % 2 == 1 then 1 else 0
  }

  function ShiftRight(x: nat, k: nat): nat
  {
    if k == 0 then x else ShiftRight(x / 2, k - 1)
  }

  function Pow2(k: nat): (p: nat)
    ensures p > 0
  {
    if k == 0 then 1 else 2 * Pow2(k - 1)
  }

  /** A number of k bits that are all set. */
  function Ones(k: nat): nat
  {
    if k == 0 then 0 else 2 * Ones(k - 1) + 1
  }

  /** The number of bits of x. */
  function Width(x: nat): nat
  {
    if x == 0 then 0 else Width(x / 2) + 1
  }

  lemma {:induction false} OnesIsPow2Less1(k: nat)
    ensures Ones(k) + 1 == Pow2(k)
  {
    if k > 0 { OnesIsPow2Less1(k - 1); }
  }

  lemma {:induction false} WidthBounds(x: nat)
    ensures x < Pow2(Width(x))
    ensures x > 0 ==> Pow2(Width(x) - 1) <= x
  {
    if x > 1 { WidthBounds(x / 2); }
  }

  lemma {:induction false} Pow2Monotone(a: nat, b: nat)
    requires a <= b
    ensures Pow2(a) <= Pow2(b)
  {
    if a < b { Pow2Monotone(a, b - 1); }
  }

  lemma {:induction false} ShiftHalf(x: nat, k: nat)
    ensures ShiftRight(x, k) / 2 == ShiftRight(x / 2, k) == ShiftRight(x, k + 1)
  {
    if k > 0 { ShiftHalf(x / 2, k - 1); }
  }

  lemma {:induction false} ShiftAdds(x: nat, j: nat, k: nat)
    ensures ShiftRight(ShiftRight(x, j), k) == ShiftRight(x, j + k)
  {
    if j > 0 { ShiftAdds(x / 2, j - 1, k); }
  }

  lemma {:induction false} ShiftOr(a: nat, b: nat, k: nat)
    ensures ShiftRight(Or(a, b), k) == Or(ShiftRight(a, k), ShiftRight(b, k))
  {
    if k > 0 {
      assert Or(a, b) / 2 == Or(a / 2, b / 2);
      ShiftOr(a / 2, b / 2, k - 1);
    }
  }

  lemma {:induction false} ShiftOnes(m: nat, k: nat)
    requires k <= m
    ensures ShiftRight(Ones(m), k) == Ones(m - k)
  {
    if k > 0 { ShiftOnes(m - 1, k - 1); }
  }

  lemma {:induction false} ShiftWidth(x: nat)
    ensures ShiftRight(x, Width(x)) == 0
    ensures x > 0 ==> ShiftRight(x, Width(x) - 1) == 1
  {
    if x > 0 { ShiftWidth(x / 2); }
  }

  /** m leading ones are copied over the d bits that follow. */
  lemma {:induction false} Fill(a: nat, m: nat, d: nat)
    requires ShiftRight(a, d) == Ones(m) && d <= m
    ensures Or(a, ShiftRight(a, m)) == Ones(m + d)
  {
    if d == 0 {
      ShiftOnes(m, m);
    } else {
      Fill(a / 2, m, d - 1);
      ShiftHalf(a, m);
      ShiftAdds(a, d, m - d);
      ShiftOnes(m, m - d);
      assert ShiftRight(a, m) == Ones(d);
    }
  }

  /** x has w bits, and its first m of them, or all when there are fewer, are ones. */
  ghost predicate LeadingOnes(x: nat, w: nat, m: nat)
  {
    ShiftRight(x, if m < w then w - m else 0) == Ones(if m < w then m else w)
  }

  lemma SmearBelow(x: nat, low: nat, m: nat, d: nat)
    requires ShiftRight(x, low + d) == Ones(m) && d <= m
    ensures ShiftRight(Or(x, ShiftRight(x, m)), low) == Ones(m + d)
  {
    ShiftOr(x, ShiftRight(x, m), low);
    ShiftAdds(x, m, low);
    ShiftAdds(x, low, m);
    ShiftAdds(x, low, d);
    Fill(ShiftRight(x, low), m, d);
  }

  lemma Smear(x: nat, w: nat, m: nat)
    requires LeadingOnes(x, w, m) && m > 0
    ensures LeadingOnes(Or(x, ShiftRight(x, m)), w, 2 * m)
  {
    if w <= m {
      ShiftOnesAway(w, m);
    } else if 2 * m < w {
      SmearBelow(x, w - 2 * m, m, m);
    } else {
      SmearBelow(x, 0, m, w - m);
    }
  }

  lemma {:induction false} ShiftOnesAway(w: nat, m: nat)
    requires w <= m
    ensures ShiftRight(Ones(w), m) == 0
  {
    ShiftOnes(w, w);
    ShiftAdds(Ones(w), w, m - w);
    ShiftZero(m - w);
  }

  lemma {:induction false} ShiftZero(k: nat)
    ensures ShiftRight(0, k) == 0
  {
    if k > 0 { ShiftZero(k - 1); }
  }

  /** Every bit copied over all lower ones. */
  function Smeared(a: nat): nat
  {
    var b := Or(a, ShiftRight(a, 1));
    var c := Or(b, ShiftRight(b, 2));
    var d := Or(c, ShiftRight(c, 4));
    var e := Or(d, ShiftRight(d, 8));
    Or(e, ShiftRight(e, 16))
  }

  /** next_pow_of_2, with the wrap-around of 32-bit arithmetic at both ends. */
  function NextPowOf2(n: uint32): nat
  {
    (Smeared(if n == 0 then UINT32_MAX else n - 1) + 1) % (UINT32_MAX + 1)
  }

  lemma SmearAll(a: nat)
    requires a <= UINT32_MAX
    ensures Smeared(a) == Ones(Width(a))
    ensures Width(a) <= 32
  {
    var w := Width(a);
    WidthBounds(a);
    ShiftWidth(a);
    assert Pow2(32) == 0x1_0000_0000 by { PowersOfTwo(); }
    if w > 32 { Pow2Monotone(32, w - 1); }
    assert LeadingOnes(a, w, 1);
    var b := Or(a, ShiftRight(a, 1));
    Smear(a, w, 1);
    var c := Or(b, ShiftRight(b, 2));
    Smear(b, w, 2);
    var d := Or(c, ShiftRight(c, 4));
    Smear(c, w, 4);
    var e := Or(d, ShiftRight(d, 8));
    Smear(d, w, 8);
    Smear(e, w, 16);
  }

  lemma PowersOfTwo()
    ensures Pow2(31) == 0x8000_0000 && Pow2(32) == 0x1_0000_0000
  {
    assert Pow2(8) == 256;
    assert Pow2(16) == 0x1_0000;
    assert Pow2(24) == 0x100_0000;
  }

  lemma NextPowOf2IsOnesPlus1(n: uint32)
    ensures var a := if n == 0 then UINT32_MAX else n - 1;
            Width(a) <= 32 && NextPowOf2(n) == Pow2(Width(a)) % (UINT32_MAX + 1)
  {
    var a := if n == 0 then UINT32_MAX else n - 1;
    SmearAll(a);
    OnesIsPow2Less1(Width(a));
  }

  lemma PowerFits(a: nat, k: nat, r: nat)
    requires a <= UINT32_MAX && k == Width(a) <= 32 && r == Pow2(k) % (UINT32_MAX + 1)
    ensures a < 0x8000_0000 ==> k <= 31 && r == Pow2(k) > a
    ensures a >= 0x8000_0000 ==> r == 0
    ensures a > 0 ==> Pow2(k - 1) <= a
  {
    WidthBounds(a);
    PowersOfTwo();
    if k <= 31 {
      Pow2Monotone(k, 31);
    } else {
      assert k == 32;
    }
  }

  /** The least power of two that is not below n, for every n that has one in 32 bits; 0 for the others. */
  lemma NextPowOf2IsLeast(n: uint32, r: nat) returns (k: nat)
    requires r == NextPowOf2(n)
    ensures 0 < n <= 0x8000_0000 ==> k <= 31 && r == Pow2(k) >= n
    ensures 0 < n <= 0x8000_0000 && k > 0 ==> Pow2(k - 1) < n
    ensures n == 0 || n > 0x8000_0000 ==> r == 0
  {
    NextPowOf2IsOnesPlus1(n);
    var a := if n == 0 then UINT32_MAX else n - 1;
    k := Width(a);
    PowerFits(a, k, r);
  }

  lemma RemainderTwice(h: nat, b: nat, p: nat)
    requires p > 0 && b < 2
    ensures (2 * h + b) % (2 * p) == 2 * (h % p) + b
  {
    var q, r := h / p, h % p;
    assert h == q * p + r;
    assert 2 * h + b == q * (2 * p) + (2 * r + b);
    RemainderOf(2 * h + b, q, 2 * p, 2 * r + b);
  }

  lemma RemainderOf(x: nat, q: nat, n: nat, r: nat)
    requires n > 0 && x == q * n + r && r < n
    ensures x % n == r
  {
    var q1, r1 := x / n, x % n;
    assert x == q1 * n + r1;
    MulStep(n, q, q1);
    MulStep(n, q1, q);
  }

  /** Masking with a power of two minus one is the remainder. */
  lemma {:induction false} MaskIsRemainder(x: nat, k: nat)
    ensures And(x, Ones(k)) == x % Pow2(k)
  {
    if k > 0 {
      MaskIsRemainder(x / 2, k - 1);
      RemainderTwice(x / 2, x % 2, Pow2(k - 1));
    }
  }

  /** Masking with all 32 bits. */
  lemma MaskOfAllBits(x: nat, mask: nat)
    requires mask == UINT32_MAX
    ensures And(x, mask) == x % (UINT32_MAX + 1)
  {
    var k: nat := 32;
    PowersOfTwo();
    OnesIsPow2Less1(k);
    MaskIsRemainder(x, k);
  }
}
