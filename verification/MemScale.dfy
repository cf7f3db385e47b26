/** Memory amounts as pbsnodes prints them (prt_node_summary, src/cmds/pbsnodes.c:403-450). */
module MemScale {
  import opened Rounding

  const MAX_SHOWN := 999

  /** One turn of the scaling loops. */
  function Step(n: nat): nat {
    (n % 1024 + n) / 1024
  }

  /** It rounds n/1024 to the nearest, halves up. */
  lemma {:induction false} StepIsHalfUp(n: nat)
    ensures Step(n) == (n + 512) / 1024
    ensures -512 < 1024 * Step(n) - n <= 512
  {
  }

  /** k turns. */
  function Steps(x: nat, k: nat): nat {
    if k == 0 then x else Step(Steps(x, k - 1))
  }

  function Abs(x: int): nat {
    if x < 0 then -x else x
  }

  /** The error of k turns stays below the sum of the errors of each turn. */
  lemma {:induction false} Drift(x: nat, k: nat)
    ensures 2 * 1023 * Abs(Steps(x, k) * Kilo(k) - x) <= 1024 * (Kilo(k) - 1)
  {
    if k > 0 {
      Drift(x, k - 1);
      DriftStep(x, Steps(x, k - 1), Kilo(k - 1));
      hide Step;
    }
  }

  lemma {:induction false} DriftStep(x: nat, n: nat, p: nat)
    requires p > 0 && 2 * 1023 * Abs(n * p - x) <= 1024 * (p - 1)
    ensures 2 * 1023 * Abs(Step(n) * (1024 * p) - x) <= 1024 * (1024 * p - 1)
  {
    StepIsHalfUp(n);
    var d := 1024 * Step(n) - n;
    hide Step;
    ErrorStep(d, p);
    ScaledStep(Step(n), n, d, p);
  }

  lemma {:induction false} ScaledStep(m: nat, n: nat, d: int, p: nat)
    requires 1024 * m == n + d
    ensures m * (1024 * p) == n * p + d * p
  {
    assert m * (1024 * p) == 1024 * m * p;
    assert (n + d) * p == n * p + d * p;
  }

  lemma {:induction false} ErrorStep(d: int, p: nat)
    requires -512 < d <= 512
    ensures -512 * p <= d * p <= 512 * p
  {
    MulMonotone(p, d, 512);
    MulMonotone(p, -512, d);
  }

  // ----- rounding in every turn against rounding once -----

  /** What k turns add before they cut off: half a unit in every turn. */
  function Offset(k: nat): (o: nat)
    ensures 2 * 1023 * o == 1024 * (Kilo(k) - 1)
  {
    if k == 0 then 0 else Offset(k - 1) + 512 * Kilo(k - 1)
  }

  /** x/1024^k to the nearest, halves up. */
  function Nearest(x: nat, k: nat): nat {
    (x + Kilo(k) / 2) / Kilo(k)
  }

  /** k turns are one division, of an amount enlarged by the offset. */
  lemma {:induction false} StepsAreOneDivision(x: nat, k: nat)
    ensures Steps(x, k) == (x + Offset(k)) / Kilo(k)
  {
    if k > 0 {
      StepsAreOneDivision(x, k - 1);
      var p, m := Kilo(k - 1), x + Offset(k - 1);
      StepIsHalfUp(m / p);
      hide Step, Steps, Kilo;
      DivisionTurn(m, p);
    }
  }

  lemma {:induction false} DivisionTurn(m: nat, p: nat)
    requires p > 0
    ensures (m / p + 512) / 1024 == (m + 512 * p) / (1024 * p)
  {
    var n := m / p;
    var q := (n + 512) / 1024;
    DivIs(m, p, n);
    DivIs(n + 512, 1024, q);
    MulMonotone(p, 1024 * q, n + 512);
    MulMonotone(p, n + 513, 1024 * q + 1024);
    Distribute(p, n, q);
    DivIs(m + 512 * p, 1024 * p, q);
  }

  lemma {:induction false} Distribute(p: nat, n: nat, q: nat)
    ensures p * (n + 512) == p * n + 512 * p && p * (n + 513) == p * n + 512 * p + p
    ensures p * (1024 * q) == 1024 * p * q && p * (1024 * q + 1024) == 1024 * p * q + 1024 * p
  {
    var z := p * q;
    assert p * (1024 * q) == 1024 * z && 1024 * p * q == 1024 * z;
  }

  /** The part of x below one unit is large enough for the turns to round up, but below one half. */
  predicate RoundedUpTooSoon(x: nat, k: nat) {
    Kilo(k) - Offset(k) <= x % Kilo(k) < Kilo(k) / 2
  }

  /** Rounding in each of k turns is rounding once, if and only if the remainder is not in that gap. */
  lemma {:induction false} RoundingOnceIsEnough(x: nat, k: nat)
    ensures Steps(x, k) == Nearest(x, k) <==> !RoundedUpTooSoon(x, k)
    ensures RoundedUpTooSoon(x, k) ==> Steps(x, k) == Nearest(x, k) + 1
  {
    StepsAreOneDivision(x, k);
    if k > 0 {
      OffsetRange(k);
      hide Steps, Kilo, Offset;
      TwoRoundings(x, Kilo(k), Offset(k));
    }
  }

  lemma {:induction false} OffsetRange(k: nat)
    requires k > 0
    ensures Kilo(k) % 2 == 0 && Kilo(k) / 2 <= Offset(k) < Kilo(k)
  {
    assert Kilo(k) == 1024 * Kilo(k - 1);
  }

  lemma {:induction false} TwoRoundings(x: nat, p: nat, o: nat)
    requires p % 2 == 0 && p / 2 <= o < p
    ensures (x + o) / p == (x + p / 2) / p + if p - o <= x % p < p / 2 then 1 else 0
  {
    Enlarged(x, p, o);
    Enlarged(x, p, p / 2);
    assert p == 2 * (p / 2);
  }

  /** Enlarging x by less than one unit changes the quotient by one, if the remainder is large enough. */
  lemma {:induction false} Enlarged(x: nat, p: nat, o: nat)
    requires o < p
    ensures (x + o) / p == x / p + if x % p + o >= p then 1 else 0
  {
    var q, r := x / p, x % p;
    DivIs(x, p, q);
    var n := q + if r + o >= p then 1 else 0;
    assert p * (q + 1) == p * q + p;
    DivIs(x + o, p, n);
  }

  /** total_mem and available_mem: scaled until at most 999 is left. k is the number of turns. */
  method ScaleDown(x: int) returns (n: int, k: nat)
    ensures n <= MAX_SHOWN
    ensures if x <= MAX_SHOWN then n == x && k == 0 else n == Steps(x, k)
    ensures x > MAX_SHOWN ==> 2 * 1023 * Abs(n * Kilo(k) - x) <= 1024 * (Kilo(k) - 1)
    ensures x >= 0 ==> n == Nearest(x, k) + if RoundedUpTooSoon(x, k) then 1 else 0
    ensures forall j :: 0 <= j < k ==> x > MAX_SHOWN && Steps(x, j) > MAX_SHOWN
  {
    n, k := x, 0;
    while n > MAX_SHOWN
      invariant if x <= MAX_SHOWN then n == x && k == 0 else n == Steps(x, k)
      invariant forall j :: 0 <= j < k ==> x > MAX_SHOWN && Steps(x, j) > MAX_SHOWN
      decreases n
    {
      n := (n % 1024 + n) / 1024;
      k := k + 1;
    }
    if x >= 0 {
      Drift(x, k);
      RoundingOnceIsEnough(x, k);
    }
  }

  /** assigned_mem, brought from its own unit to the unit of the total. */
  method Convert(x: nat, from: nat, to: nat) returns (n: nat)
    ensures if from <= to then n == Steps(x, to - from) else n == x * Kilo(from - to)
    ensures n == InUnit(x, from, to)
    ensures from <= to ==> 2 * 1023 * Abs(n * Kilo(to - from) - x) <= 1024 * (Kilo(to - from) - 1)
  {
    n := x;
    var prefix := from;
    while prefix != to
      invariant if from <= to then from <= prefix <= to && n == Steps(x, prefix - from)
                else to <= prefix <= from && n == x * Kilo(from - prefix)
      decreases if prefix < to then to - prefix else prefix - to
    {
      if prefix < to {
        n := (n % 1024 + n) / 1024;
        prefix := prefix + 1;
      } else {
        assert x * Kilo(from - prefix) * 1024 == x * Kilo(from - (prefix - 1));
        n := n * 1024;
        prefix := prefix - 1;
      }
    }
    if from <= to {
      Drift(x, to - from);
      RoundingOnceIsEnough(x, to - from);
    }
  }

  /** The letters printed behind the two amounts. */
  datatype Shown = Shown(available: int, availablePrefix: nat, total: int, totalPrefix: nat)

  /** The assigned amount in the unit of the total. */
  function InUnit(x: nat, from: nat, to: nat): nat {
    if from <= to then Nearest(x, to - from) + (if RoundedUpTooSoon(x, to - from) then 1 else 0)
    else x * Kilo(from - to)
  }

  /** Both amounts of the summary: what is printed for a total and what of it is used. */
  method MemInfo(total: nat, totalPrefix: nat, used: nat, usedPrefix: nat) returns (s: Shown)
    ensures s.total <= MAX_SHOWN && s.available <= MAX_SHOWN
    ensures s.totalPrefix >= totalPrefix && s.availablePrefix >= totalPrefix
    ensures forall j :: 0 <= j < s.totalPrefix - totalPrefix ==> total > MAX_SHOWN && Steps(total, j) > MAX_SHOWN
    ensures var free := total - InUnit(used, usedPrefix, totalPrefix);
            forall j :: 0 <= j < s.availablePrefix - totalPrefix ==> free > MAX_SHOWN && Steps(free, j) > MAX_SHOWN
    ensures var k := s.totalPrefix - totalPrefix;
            2 * 1023 * Abs(s.total * Kilo(k) - total) <= 1024 * (Kilo(k) - 1)
    ensures var k := s.totalPrefix - totalPrefix;
            s.total == Nearest(total, k) + if RoundedUpTooSoon(total, k) then 1 else 0
    ensures var k, free := s.availablePrefix - totalPrefix, total - InUnit(used, usedPrefix, totalPrefix);
            free >= 0 ==> s.available == Nearest(free, k) + if RoundedUpTooSoon(free, k) then 1 else 0
    ensures usedPrefix >= totalPrefix ==>
            var k, free := s.availablePrefix - totalPrefix, total - used * Kilo(usedPrefix - totalPrefix);
            2 * 1023 * Abs(s.available * Kilo(k) - free) <= 1024 * (Kilo(k) - 1)
    ensures usedPrefix < totalPrefix ==>
            var k, free := s.availablePrefix - totalPrefix, total - Steps(used, totalPrefix - usedPrefix);
            2 * 1023 * Abs(s.available * Kilo(k) - free) <= 1024 * (Kilo(k) - 1)
  {
    var inTotalUnit := Convert(used, usedPrefix, totalPrefix);
    var available, ka := ScaleDown(total - inTotalUnit);
    var shown, kt := ScaleDown(total);
    s := Shown(available, totalPrefix + ka, shown, totalPrefix + kt);
  }

  /** 1572352 kb shows as 2 gb, but it is nearer to 1 gb. */
  lemma {:induction false} RepeatedRoundingDrifts()
    ensures RoundedUpTooSoon(1572352, 2) && Steps(1572352, 2) == 2 && Nearest(1572352, 2) == 1
    ensures Steps(1572352, 1) > MAX_SHOWN
  {
    assert Steps(1572352, 1) == Step(1572352) == 1536;
    assert Kilo(2) == 1024 * Kilo(1) == 1048576;
  }
}
