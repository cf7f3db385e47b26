/** Powers of 1024, rounding up and rounding to the nearest. */
module Rounding {
  import opened BitWords

  function Kilo(k: nat): (r: nat)
    ensures r > 0
  {
    if k == 0 then 1 else 1024 * Kilo(k - 1)
  }

  lemma {:induction false} KiloNumbers()
    ensures Kilo(0) == 1 && Kilo(1) == 1024 && Kilo(2) == 1048576
    ensures Kilo(3) == 1073741824 && Kilo(4) == 1099511627776
  {
    assert Kilo(2) == 1024 * Kilo(1) == 1048576;
    assert Kilo(3) == 1024 * Kilo(2);
  }

  lemma {:induction false} KiloAdd(a: nat, b: nat)
    ensures Kilo(a + b) == Kilo(a) * Kilo(b)
  {
    if a > 0 {
      KiloAdd(a - 1, b);
      assert Kilo(a + b) == 1024 * Kilo(a - 1 + b);
      MulAssoc(1024, Kilo(a - 1), Kilo(b));
    }
  }

  lemma {:induction false} MulAssoc(a: int, b: int, c: int)
    ensures a * (b * c) == a * b * c
  {
  }

  /** Shifting by ten times k is scaling by 1024^k. */
  lemma {:induction false} KiloIsPow2(k: nat)
    ensures Pow2(10 * k) == Kilo(k)
  {
    if k > 0 {
      KiloIsPow2(k - 1);
      Pow2Add(10, 10 * (k - 1));
      assert Pow2(4) == 16;
      Pow2Add(4, 4);
      Pow2Add(8, 2);
      assert Pow2(2) == 4;
    }
  }

  // ----- rounding up -----

  function CeilDiv(a: nat, b: nat): nat
    requires b > 0
  {
    (a + (b - 1)) / b
  }

  /** The quotient rounded up is the only number whose multiple covers a and exceeds it by less than b. */
  lemma {:induction false} CeilIs(a: nat, b: nat, q: nat)
    requires b > 0
    ensures CeilDiv(a, b) == q <==> a <= b * q < a + b
  {
    DivIs(a + (b - 1), b, q);
  }

  /** It is the least number of units that hold a. */
  lemma {:induction false} LeastMultiple(a: nat, b: nat)
    requires b > 0
    ensures a <= b * CeilDiv(a, b) && (CeilDiv(a, b) > 0 ==> b * (CeilDiv(a, b) - 1) < a)
  {
    var q: int := CeilDiv(a, b);
    CeilIs(a, b, q);
    assert b * (q - 1) == b * q - b;
  }

  lemma {:induction false} DivIs(a: nat, b: nat, q: nat)
    requires b > 0
    ensures a / b == q <==> b * q <= a < b * q + b
  {
    var p := a / b;
    assert b * p <= a < b * p + b;
    if b * q <= a < b * q + b {
      if p < q {
        MulStep(b, p, q);
      } else if q < p {
        MulStep(b, q, p);
      }
    }
  }

  lemma {:induction false} MulStep(b: nat, p: nat, q: nat)
    requires p < q
    ensures b * p + b <= b * q
  {
    var d := q - p - 1;
    assert b * q == b * p + b + b * d;
    assert b * d >= 0;
  }

  /** Rounding up twice is rounding up once. */
  lemma {:induction false} CeilCeil(a: nat, b: nat, c: nat)
    requires b > 0 && c > 0
    ensures b * c > 0 && CeilDiv(CeilDiv(a, b), c) == CeilDiv(a, b * c)
  {
    var p := CeilDiv(a, b);
    var q := CeilDiv(p, c);
    CeilIs(a, b, p);
    CeilIs(p, c, q);
    Positive(b, c);
    MulAssoc(b, c, q);
    MulMonotone(b, p, c * q);
    MulMonotone(b, c * q, p + c - 1);
    assert b * (p + c - 1) == b * p + b * c - b;
    CeilIs(a, b * c, q);
  }

  lemma {:induction false} Positive(b: nat, c: nat)
    requires b > 0 && c > 0
    ensures b * c > 0
  {
  }

  lemma {:induction false} MulMonotone(b: nat, x: int, y: int)
    requires x <= y
    ensures b * x <= b * y
  {
    assert b * y == b * x + b * (y - x);
    assert b * (y - x) >= 0;
  }

  /** A common factor cancels. */
  lemma {:induction false} CeilCancel(a: nat, b: nat, c: nat)
    requires b > 0 && c > 0
    ensures b * c > 0 && CeilDiv(a * c, b * c) == CeilDiv(a, b)
  {
    var q := CeilDiv(a, b);
    CeilIs(a, b, q);
    Positive(b, c);
    MulMonotone(c, a, b * q);
    MulMonotone(c, b * q + 1, a + b);
    assert c * (b * q) == b * c * q;
    assert c * (b * q + 1) == b * c * q + c && c * (a + b) == a * c + b * c;
    CeilIs(a * c, b * c, q);
  }

  /** A smaller unit gives no smaller number. */
  lemma {:induction false} CeilShrinks(a: nat, b: nat)
    requires b > 0
    ensures CeilDiv(a, b) <= a
  {
    var q := CeilDiv(a, b);
    CeilIs(a, b, q);
    assert b * a == a + (b - 1) * a;
    MulMonotone(a, 0, b - 1);
    assert b * q < b * (a + 1);
    Less(b, q, a + 1);
  }

  lemma {:induction false} Less(b: nat, p: int, q: int)
    requires b * p < b * q
    ensures p < q
  {
    if p >= q {
      MulMonotone(b, q, p);
    }
  }
}
