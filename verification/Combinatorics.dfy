/** src/netspeak/util/Math.hpp, and the counting facts that the chain cutter and the norm query counter rest on. */
module Combinatorics {

  /** Pascal's triangle. */
  function Choose(n: nat, k: nat): nat
  {
    if k == 0 then 1
    else if n == 0 then 0
    else Choose(n - 1, k - 1) + Choose(n - 1, k)
  }

  function Pow(b: nat, e: nat): nat
  {
    if e == 0 then 1 else b * Pow(b, e - 1)
  }

  /** `binomial` for an unsigned type of the given number of values: every product wraps, every division truncates. */
  function Binomial(n: nat, k: nat, size: nat): nat
    requires k <= n && size > 0
  {
    if k == 0 then 1 else n * Binomial(n - 1, k - 1, size) % size / k
  }

  lemma {:induction false} ChooseTooMany(n: nat, k: nat)
    requires k > n
    ensures Choose(n, k) == 0
  {
    if n > 0 {
      ChooseTooMany(n - 1, k - 1);
      ChooseTooMany(n - 1, k);
    }
  }

  /** One step of Pascal's triangle towards the absorption identity. */
  lemma AbsorptionStep(n: int, k: int, a: int, b: int, c: int, d: int)
    requires a == c + d && k * b == (n - 1) * d && (k - 1) * a == (n - 1) * c
    ensures k * (a + b) == n * a
  {
    assert k * (a + b) == (k - 1) * a + a + k * b;
    assert n * a == (n - 1) * (c + d) + a;
    assert (n - 1) * (c + d) == (n - 1) * c + (n - 1) * d;
  }

  /** The absorption identity: the division in `Binomial` leaves no remainder. */
  lemma {:induction false} ChooseAbsorption(n: nat, k: nat)
    requires 1 <= k <= n
    ensures k * Choose(n, k) == n * Choose(n - 1, k - 1)
  {
    if k == n {
      ChooseFull(n);
      ChooseFull(n - 1);
    } else if k == 1 {
      ChooseSmall(n - 1);
      ChooseSmall(n);
    } else {
      ChooseAbsorption(n - 1, k);
      ChooseAbsorption(n - 1, k - 1);
      AbsorptionStep(n, k, Choose(n - 1, k - 1), Choose(n - 1, k), Choose(n - 2, k - 2), Choose(n - 2, k - 1));
    }
  }

  lemma {:induction false} ChooseSmall(n: nat)
    ensures Choose(n, 1) == n && Choose(n, 0) == 1
  {
    if n > 0 {
      ChooseSmall(n - 1);
    }
  }

  /** The quotient is the binomial coefficient exactly when its last product does not wrap. */
  lemma {:induction false} BinomialExactIff(n: nat, k: nat, size: nat)
    requires k <= n && size > 0
    ensures Binomial(n, k, size) == Choose(n, k) <==> k * Choose(n, k) < size
  {
    if k > 0 {
      ChooseAbsorption(n, k);
      BinomialExactIff(n - 1, k - 1, size);
      QuotientExactIff(n, k, size, Binomial(n - 1, k - 1, size), Choose(n - 1, k - 1), Choose(n, k));
    } else {
      assert Choose(n, 0) == 1;
    }
  }

  /** A pair for which the product wraps, in 64 bits. */
  lemma BinomialWraps()
    ensures Binomial(0x1_0000_0001, 2, 0x1_0000_0000_0000_0000) == 0x8000_0000
    ensures Choose(0x1_0000_0001, 2) == 0x8000_0000 * 0x1_0000_0001
  {
    var n, size := 0x1_0000_0001, 0x1_0000_0000_0000_0000;
    assert Binomial(n - 2, 0, size) == 1;
    assert Binomial(n - 1, 1, size) == n - 1;
    assert Binomial(n, 2, size) == n * (n - 1) % size / 2;
    ChooseAbsorption(n, 2);
    ChooseSmall(n - 1);
  }

  lemma QuotientExactIff(n: nat, k: nat, size: nat, b: nat, inner: nat, c: nat)
    requires 0 < k <= n && size > 0 && k * c == n * inner
    requires b == inner <==> (k - 1) * inner < size
    ensures n * b % size / k == c <==> k * c < size
  {
    if k * c < size {
      MulMonotone(inner, k - 1, n);
      QuotientExact(k, size, n * b, c);
    } else {
      DivideBelow(k, n * b % size, c);
    }
  }

  lemma QuotientExact(k: nat, size: nat, x: nat, c: nat)
    requires k > 0 && x == k * c < size
    ensures x % size / k == c
  {
    Unwrapped(x, size);
    QuotientOf(k, x % size, c);
  }

  lemma Unwrapped(x: nat, size: nat)
    requires x < size
    ensures x % size == x
  {
  }

  lemma QuotientOf(k: nat, x: nat, c: nat)
    requires k > 0 && x == k * c
    ensures x / k == c
  {
    DivideBack(k, c);
  }

  lemma DivideBelow(k: nat, x: nat, c: nat)
    requires k > 0 && x < k * c
    ensures x / k < c
  {
    var q := x / k;
    assert k * q <= x;
    if q >= c { MulMonotone(k, c, q); }
  }

  lemma DivideBack(k: nat, c: nat)
    requires k > 0
    ensures k * c / k == c
  {
    var q := k * c / k;
    assert k * q <= k * c < k * q + k;
    MulStep(k, q, c);
    MulStep(k, c, q);
  }

  lemma {:induction false} ChooseSymmetric(n: nat, k: nat)
    requires k <= n
    ensures Choose(n, k) == Choose(n, n - k)
  {
    if k == 0 {
      ChooseFull(n);
    } else if k == n {
      ChooseFull(n);
    } else {
      ChooseSymmetric(n - 1, k - 1);
      ChooseSymmetric(n - 1, k);
    }
  }

  lemma {:induction false} ChooseFull(n: nat)
    ensures Choose(n, n) == 1
  {
    if n > 0 {
      ChooseFull(n - 1);
      ChooseTooMany(n - 1, n);
    }
  }

  /** k stars that share a room of a words can be filled in at most (a + 1)^k ways. */
  lemma {:induction false} FillingsBound(a: nat, k: nat)
    ensures Choose(a + k, k) <= Pow(a + 1, k)
  {
    if k > 0 {
      FillingsBound(a, k - 1);
      ChooseAbsorption(a + k, k);
      var p := Pow(a + 1, k - 1);
      MulMonotone(a + k, Choose(a + k - 1, k - 1), p);
      FillingStep(a, k, p);
      CancelFactor(k, Choose(a + k, k), (a + 1) * p);
    }
  }

  lemma FillingStep(a: nat, k: nat, p: nat)
    requires k > 0
    ensures (a + k) * p <= k * ((a + 1) * p)
  {
    assert k * (a + 1) == k * a + k;
    MulMonotone(a, 1, k);
    assert a + k <= k * (a + 1);
    MulMonotone(p, a + k, k * (a + 1));
    MulAssoc(k, a + 1, p);
  }

  lemma MulAssoc(x: int, y: int, z: int)
    ensures (x * y) * z == x * (y * z)
  {
  }

  lemma MulMonotone(x: nat, y: int, z: int)
    requires y <= z
    ensures x * y <= x * z
  {
  }

  lemma CancelFactor(k: nat, x: int, y: int)
    requires k > 0 && k * x <= k * y
    ensures x <= y
  {
    MulStep(k, y, x);
  }

  lemma MulStep(k: nat, x: int, y: int)
    ensures x < y ==> k * x + k <= k * y
  {
    assert k * (x + 1) == k * x + k;
    if x < y {
      MulMonotone(k, x + 1, y);
    }
  }

  lemma {:induction false} PowAdd(b: nat, d: nat, e: nat)
    ensures Pow(b, d + e) == Pow(b, d) * Pow(b, e)
  {
    if d > 0 {
      PowAdd(b, d - 1, e);
      MulAssoc(b, Pow(b, d - 1), Pow(b, e));
    }
  }

  lemma {:induction false} PowMonotone(a: nat, b: nat, e: nat)
    requires a <= b
    ensures Pow(a, e) <= Pow(b, e)
  {
    if e > 0 {
      PowMonotone(a, b, e - 1);
      MulMonotone(a, Pow(a, e - 1), Pow(b, e - 1));
      MulMonotone(Pow(b, e - 1), a, b);
    }
  }

  function Fact(n: nat): nat
  {
    if n == 0 then 1 else n * Fact(n - 1)
  }

  /** Reducing a factor keeps the remainder of a product. */
  lemma ReduceFactor(x: nat, y: nat, size: nat)
    requires size > 0
    ensures (x % size) * y % size == x * y % size
  {
    var q, r := x / size, x % size;
    assert x * y == r * y + (q * y) * size;
    AddMultiple(r * y, q * y, size);
  }

  lemma AddMultiple(r: nat, q: nat, size: nat)
    requires size > 0
    ensures (r + q * size) % size == r % size
  {
    var a, b := r / size, r % size;
    var x := r + q * size;
    assert x == (a + q) * size + b;
    var c, d := x / size, x % size;
    assert x == c * size + d;
    MulStep(size, a + q, c);
    MulStep(size, c, a + q);
  }

  lemma FactStep(prod: nat, m: nat, size: nat)
    requires size > 0 && m > 0
    ensures (prod * m % size) * Fact(m - 1) % size == prod * Fact(m) % size
  {
    MulAssoc(prod, m, Fact(m - 1));
    ReduceFactor(prod * m, Fact(m - 1), size);
  }

  /** `factorial` for an unsigned type of the given number of values: multiplies downwards and stops at 1. */
  method Factorial(n: nat, size: nat) returns (prod: nat)
    requires size > 1
    ensures prod == Fact(n) % size
  {
    prod := 1;
    var m: nat := n;
    ghost var goal := Fact(n) % size;
    while m > 1
      invariant prod < size && prod * Fact(m) % size == goal
    {
      FactStep(prod, m, size);
      prod := prod * m % size;
      m := m - 1;
    }
    assert Fact(m) == 1;
  }

  lemma SmallFactorials(n: nat)
    requires n < 7
    ensures Fact(n) <= 720
  {
    assert Fact(1) == 1 && Fact(2) == 2 && Fact(3) == 6;
    assert Fact(4) == 24 && Fact(5) == 120;
    assert Fact(6) == 720;
  }
}
