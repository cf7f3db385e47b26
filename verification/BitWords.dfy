/** Machine words of 64 bits and the operations that bitfield.h uses on them. */
module BitWords {
  const BPW := 64
  const LIMIT := 0x1_0000_0000_0000_0000
  const TOP := 0x8000_0000_0000_0000

  /** unsigned long long */
  type Word = n: int | 0 <= n < LIMIT

  function Pow2(k: nat): (r: nat)
    ensures r > 0
  {
    if k == 0 then 1 else 2 * Pow2(k - 1)
  }

  lemma {:induction false} Pow2Add(a: nat, b: nat)
    ensures Pow2(a + b) == Pow2(a) * Pow2(b)
  {
    if a > 0 {
      Pow2Add(a - 1, b);
      assert Pow2(a + b) == 2 * Pow2(a - 1 + b);
      assert 2 * (Pow2(a - 1) * Pow2(b)) == (2 * Pow2(a - 1)) * Pow2(b);
    }
  }

  lemma {:induction false} Pow2Word()
    ensures Pow2(63) == TOP && Pow2(64) == LIMIT
  {
    assert Pow2(8) == 256;
    Pow2Add(8, 8);
    Pow2Add(16, 16);
    Pow2Add(32, 32);
  }

  /** Bit i of n. */
  predicate Bit(n: nat, i: nat) {
    if i == 0 then n % 2 == 1 else Bit(n / 2, i - 1)
  }

  lemma {:induction false} NoBits(i: nat)
    ensures !Bit(0, i)
  {
    if i > 0 {
      NoBits(i - 1);
    }
  }

  /** n is the sum of its lower k bits and the rest: two numbers below 2^k with the same bits are equal. */
  lemma {:induction false} SameBits(a: nat, b: nat, k: nat)
    requires a < Pow2(k) && b < Pow2(k) && forall i :: 0 <= i < k ==> (Bit(a, i) <==> Bit(b, i))
    ensures a == b
  {
    if k > 0 {
      assert Bit(a, 0) <==> Bit(b, 0);
      forall i | 0 <= i < k - 1 ensures Bit(a / 2, i) <==> Bit(b / 2, i) {
        assert Bit(a, i + 1) <==> Bit(b, i + 1);
      }
      SameBits(a / 2, b / 2, k - 1);
    }
  }

  // ----- & | ~ << >> -----

  function AndN(a: nat, b: nat): (r: nat)
    ensures r <= a && r <= b
  {
    if a == 0 || b == 0 then 0 else 2 * AndN(a / 2, b / 2) + if a % 2 == 1 && b % 2 == 1 then 1 else 0
  }

  function And(a: Word, b: Word): Word {
    AndN(a, b)
  }

  function Not(a: Word): Word {
    LIMIT - 1 - a
  }

  function Or(a: Word, b: Word): Word {
    Not(And(Not(a), Not(b)))
  }

  /** w << 1 */
  function Shl(w: Word): Word {
    2 * w % LIMIT
  }

  /** w >> 1 */
  function Shr(w: Word): Word {
    w / 2
  }

  lemma {:induction false} AndBit(a: nat, b: nat, i: nat)
    ensures Bit(AndN(a, b), i) <==> Bit(a, i) && Bit(b, i)
  {
    if a == 0 || b == 0 {
      NoBits(i);
    } else if i > 0 {
      AndBit(a / 2, b / 2, i - 1);
    }
  }

  lemma {:induction false} ComplementBit(a: nat, k: nat, i: nat)
    requires a < Pow2(k) && i < k
    ensures Bit(Pow2(k) - 1 - a, i) <==> !Bit(a, i)
  {
    if i > 0 {
      ComplementBit(a / 2, k - 1, i - 1);
      assert (Pow2(k) - 1 - a) / 2 == Pow2(k - 1) - 1 - a / 2;
    }
  }

  lemma {:induction false} NotBit(a: Word, i: nat)
    requires i < BPW
    ensures Bit(Not(a), i) <==> !Bit(a, i)
  {
    Pow2Word();
    ComplementBit(a, 64, i);
  }

  lemma {:induction false} OrBit(a: Word, b: Word, i: nat)
    requires i < BPW
    ensures Bit(Or(a, b), i) <==> Bit(a, i) || Bit(b, i)
  {
    NotBit(a, i);
    NotBit(b, i);
    AndBit(Not(a), Not(b), i);
    NotBit(And(Not(a), Not(b)), i);
  }

  /** A word is zero when it has no bit. */
  lemma {:induction false} NonZeroBit(n: Word) returns (i: nat)
    requires n != 0
    ensures i < BPW && Bit(n, i)
  {
    Pow2Word();
    i := SomeBit(n, BPW);
  }

  lemma {:induction false} SomeBit(n: nat, k: nat) returns (i: nat)
    requires 0 < n < Pow2(k)
    ensures i < k && Bit(n, i)
  {
    if n % 2 == 1 {
      i := 0;
    } else {
      i := SomeBit(n / 2, k - 1);
      i := i + 1;
    }
  }

  // ----- single bits -----

  lemma {:induction false} Pow2Bit(k: nat, i: nat)
    ensures Bit(Pow2(k), i) <==> i == k
  {
    if i == 0 {
      if k > 0 {
        assert Pow2(k) == 2 * Pow2(k - 1);
      }
    } else if k == 0 {
      NoBits(i - 1);
    } else {
      Pow2Bit(k - 1, i - 1);
    }
  }

  /** 1ULL << k */
  function OneAt(k: nat): Word
    requires k < BPW
  {
    Pow2Word();
    Pow2Less(k, BPW);
    Pow2(k)
  }

  lemma {:induction false} Pow2Less(a: nat, b: nat)
    requires a < b
    ensures Pow2(a) < Pow2(b)
  {
    if a + 1 < b {
      Pow2Less(a, b - 1);
    }
  }

  /** The mask picks out one bit: n & (1 << k) is that bit alone. */
  lemma {:induction false} TestBit(n: nat, k: nat)
    ensures AndN(n, Pow2(k)) != 0 <==> Bit(n, k)
  {
    if n != 0 && k > 0 {
      TestBit(n / 2, k - 1);
    } else if n == 0 {
      NoBits(k);
    }
  }

  // ----- n & (n - 1) -----

  /** The number of bits of n. */
  function Ones(n: nat): nat {
    if n == 0 then 0 else n % 2 + Ones(n / 2)
  }

  /** Clearing the lowest one: one bit less. */
  lemma {:induction false} KernighanStep(n: nat)
    requires n != 0
    ensures Ones(AndN(n, n - 1)) == Ones(n) - 1
  {
    if n % 2 == 1 {
      AndSelf(n / 2);
      assert (n - 1) / 2 == n / 2 && (n - 1) % 2 == 0;
      assert AndN(n, n - 1) == 2 * AndN(n / 2, n / 2);
    } else {
      KernighanStep(n / 2);
      assert (n - 1) / 2 == n / 2 - 1 && (n - 1) % 2 == 1;
      assert AndN(n, n - 1) == 2 * AndN(n / 2, n / 2 - 1);
    }
  }

  lemma {:induction false} AndSelf(n: nat)
    ensures AndN(n, n) == n
  {
    if n != 0 {
      AndSelf(n / 2);
    }
  }

  // ----- the shifts, bit by bit -----

  lemma {:induction false} TopBit(w: Word)
    ensures (And(w, TOP) != 0) <==> w >= TOP
  {
    Pow2Word();
    TestBit(w, 63);
    TopIsHigh(w, 63);
  }

  lemma {:induction false} TopIsHigh(n: nat, k: nat)
    requires n < Pow2(k + 1)
    ensures Bit(n, k) <==> n >= Pow2(k)
  {
    if k > 0 {
      TopIsHigh(n / 2, k - 1);
    }
  }

  lemma {:induction false} LowBit(w: Word)
    ensures (And(w, 1) != 0) <==> w % 2 == 1
  {
    TestBit(w, 0);
  }

  /** |= with a bit that is not set is addition. */
  lemma {:induction false} OrLow(w: Word)
    requires w % 2 == 0
    ensures Or(w, 1) == w + 1
  {
    var a, b := Not(w), Not(1);
    assert a % 2 == 1 && b % 2 == 0;
    AndClearsLow(a, b);
  }

  lemma {:induction false} AndClearsLow(a: Word, b: Word)
    requires a % 2 == 1 && b == Not(1)
    ensures And(a, b) == a - 1
  {
    Pow2Word();
    assert b / 2 == Pow2(63) - 1;
    AndAllOnes(a / 2, 63);
    assert a == 2 * (a / 2) + 1;
  }

  lemma {:induction false} AndAllOnes(n: nat, k: nat)
    requires n < Pow2(k)
    ensures AndN(n, Pow2(k) - 1) == n
  {
    if n != 0 {
      AndAllOnes(n / 2, k - 1);
      assert (Pow2(k) - 1) / 2 == Pow2(k - 1) - 1;
    }
  }

  lemma {:induction false} OrTop(w: Word)
    requires w < TOP
    ensures Or(w, TOP) == w + TOP
  {
    Pow2Word();
    var a, b := Not(w), Not(TOP);
    assert a == TOP + (TOP - 1 - w) && b == TOP - 1;
    AndLowerHalf(TOP - 1 - w, 63);
    assert And(a, b) == TOP - 1 - w;
  }

  lemma {:induction false} AndLowerHalf(n: nat, k: nat)
    requires n < Pow2(k)
    ensures AndN(Pow2(k) + n, Pow2(k) - 1) == n
  {
    if k > 0 {
      AndLowerHalf(n / 2, k - 1);
      assert (Pow2(k) + n) / 2 == Pow2(k - 1) + n / 2;
      assert (Pow2(k) - 1) / 2 == Pow2(k - 1) - 1;
    }
  }
}
