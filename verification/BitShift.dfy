/** Shifting a bit set by one position (BITFIELD_SHIFTL and BITFIELD_SHIFTR, src/include/bitfield.h:422-450). */
module BitShift {
  import opened BitWords
  import opened BitSets

  // ----- the loops, on values -----

  /** The words after the turns of BITFIELD_SHIFTL from w on. */
  function LeftFrom(ws: seq<Word>, w: nat): (r: seq<Word>)
    ensures |r| == |ws|
    decreases |ws| - w
  {
    if w + 1 >= |ws| then ws
    else LeftFrom(ws[w := Shl(ws[w])][w + 1 := Or(Shl(ws[w + 1]), if And(ws[w], TOP) != 0 then 1 else 0)], w + 1)
  }

  /** The words after the turns of BITFIELD_SHIFTR from w down to 1. */
  function RightFrom(ws: seq<Word>, w: nat): (r: seq<Word>)
    requires w < |ws| || w == 0
    ensures |r| == |ws|
    decreases w
  {
    if w == 0 then ws
    else RightFrom(ws[w := Shr(ws[w])][w - 1 := Or(Shr(ws[w - 1]), if And(ws[w], 1) != 0 then TOP else 0)], w - 1)
  }

  function ShiftedLeft(ws: seq<Word>): (r: seq<Word>)
    ensures |r| == |ws|
  {
    LeftFrom(ws, 0)
  }

  function ShiftedRight(ws: seq<Word>): (r: seq<Word>)
    ensures |r| == |ws|
  {
    RightFrom(ws, if ws == [] then 0 else |ws| - 1)
  }

  method ShiftL(bits: array<Word>)
    modifies bits
    ensures bits[..] == ShiftedLeft(old(bits[..]))
  {
    var w := 0;
    ghost var whole := ShiftedLeft(bits[..]);
    while w < bits.Length - 1
      invariant w == 0 || w < bits.Length
      invariant LeftFrom(bits[..], w) == whole
    {
      ghost var ws := bits[..];
      var upper := if And(bits[w], TOP) != 0 then 1 else 0;
      bits[w] := Shl(bits[w]);
      bits[w + 1] := Shl(bits[w + 1]);
      bits[w + 1] := Or(bits[w + 1], upper);
      assert bits[..] == ws[w := Shl(ws[w])][w + 1 := Or(Shl(ws[w + 1]), upper)];
      w := w + 1;
    }
  }

  method ShiftR(bits: array<Word>)
    requires bits.Length > 0
    modifies bits
    ensures bits[..] == ShiftedRight(old(bits[..]))
  {
    var w := bits.Length - 1;
    ghost var whole := ShiftedRight(bits[..]);
    while w > 0
      invariant 0 <= w < bits.Length
      invariant RightFrom(bits[..], w) == whole
    {
      ghost var ws := bits[..];
      var lower := And(bits[w], 1);
      bits[w] := Shr(bits[w]);
      bits[w - 1] := Shr(bits[w - 1]);
      bits[w - 1] := Or(bits[w - 1], if lower != 0 then TOP else 0);
      assert bits[..] == ws[w := Shr(ws[w])][w - 1 := Or(Shr(ws[w - 1]), if And(ws[w], 1) != 0 then TOP else 0)];
      w := w - 1;
    }
  }

  // ----- what they do to the number -----

  /** Shifting left by one position, for n words. */
  ghost predicate DoublesAll(n: nat) {
    forall ws: seq<Word> :: |ws| == n ==> Val(ShiftedLeft(ws)) == 2 * Val(ws) % Pow2(BPW * n)
  }

  /** Shifting right by one position, for n words. */
  ghost predicate HalvesAll(n: nat) {
    forall ws: seq<Word> :: |ws| == n ==> Val(ShiftedRight(ws)) == Val(ws) / 2
  }

  lemma {:induction false} OrZero(w: Word)
    ensures Or(w, 0) == w
  {
    Pow2Word();
    AndAllOnes(Not(w), 64);
  }

  lemma {:induction false} ValOfTwo(ws: seq<Word>)
    requires |ws| == 2
    ensures Val(ws) == ws[0] + LIMIT * ws[1]
  {
    ValTwo(ws);
    assert ws[2..] == [];
  }

  lemma {:induction false} TwoWordsLeft(ws: seq<Word>)
    requires |ws| == 2
    ensures ShiftedLeft(ws) == [Shl(ws[0]), Shl(ws[1]) + if ws[0] >= TOP then 1 else 0]
  {
    var a, b := ws[0], ws[1];
    hide Or, AndN;
    TopBit(a);
    assert Shl(b) % 2 == 0;
    if a >= TOP {
      OrLow(Shl(b));
    } else {
      OrZero(Shl(b));
    }
    assert LeftFrom(ws, 0) == LeftFrom(ws[0 := Shl(a)][1 := Or(Shl(b), if And(a, TOP) != 0 then 1 else 0)], 1);
  }

  lemma {:induction false} TwoWordsRight(ws: seq<Word>)
    requires |ws| == 2
    ensures ShiftedRight(ws) == [ws[0] / 2 + (if ws[1] % 2 == 1 then TOP else 0), ws[1] / 2]
  {
    var a, b := ws[0], ws[1];
    hide Or, AndN;
    LowBit(b);
    if b % 2 == 1 {
      OrTop(Shr(a));
    } else {
      OrZero(Shr(a));
    }
    assert RightFrom(ws, 1) == RightFrom(ws[1 := Shr(b)][0 := Or(Shr(a), if And(b, 1) != 0 then TOP else 0)], 0);
  }

  /** With two words the left shift is doubling modulo 2^128. */
  lemma {:induction false} TwoWordsDouble(ws: seq<Word>)
    requires |ws| == 2
    ensures Val(ShiftedLeft(ws)) == 2 * Val(ws) % Pow2(128)
  {
    var a, b := ws[0], ws[1];
    calc {
      Val(ShiftedLeft(ws));
      { LeftVal(ws); }
      Shl(a) + LIMIT * (Shl(b) + if a >= TOP then 1 else 0);
      { DoubleArithmetic(a, b); }
      2 * (a + LIMIT * b) % (LIMIT * LIMIT);
      { TwoWordModulus(); }
      2 * (a + LIMIT * b) % Pow2(128);
      { ValOfTwo(ws); }
      2 * Val(ws) % Pow2(128);
    }
  }

  lemma {:induction false} TwoWordModulus()
    ensures Pow2(128) == LIMIT * LIMIT
  {
    Pow2Word();
    Pow2Add(64, 64);
  }

  lemma {:induction false} LeftVal(ws: seq<Word>)
    requires |ws| == 2
    ensures Val(ShiftedLeft(ws)) == Shl(ws[0]) + LIMIT * (Shl(ws[1]) + if ws[0] >= TOP then 1 else 0)
  {
    hide Val, ShiftedLeft, Shl;
    TwoWordsLeft(ws);
    ValOfTwo(ShiftedLeft(ws));
  }

  lemma {:induction false} DoubleArithmetic(a: Word, b: Word)
    ensures Shl(a) + LIMIT * (Shl(b) + if a >= TOP then 1 else 0) == 2 * (a + LIMIT * b) % (LIMIT * LIMIT)
  {
    var upper := if a >= TOP then 1 else 0;
    var top := if b >= TOP then 1 else 0;
    assert Shl(a) == 2 * a - upper * LIMIT && Shl(b) == 2 * b - top * LIMIT;
    var r := Shl(a) + LIMIT * (Shl(b) + upper);
    assert r == 2 * (a + LIMIT * b) - top * (LIMIT * LIMIT);
    Remainder(2 * (a + LIMIT * b), LIMIT * LIMIT, top, r);
  }

  lemma {:induction false} Remainder(x: nat, m: nat, k: nat, r: nat)
    requires x == k * m + r && r < m && k <= 1
    ensures x % m == r
  {
  }

  /** And the right shift is halving. */
  lemma {:induction false} TwoWordsHalve(ws: seq<Word>)
    requires |ws| == 2
    ensures Val(ShiftedRight(ws)) == Val(ws) / 2
  {
    TwoWordsRight(ws);
    ValOfTwo(ws);
    ValOfTwo(ShiftedRight(ws));
  }

  // ----- any other number of words -----

  /** n words of which only the word 1 is not zero. */
  function OnlyOne(n: nat, x: Word): (ws: seq<Word>)
    requires n >= 2
    ensures |ws| == n
  {
    seq(n, i => if i == 1 then x else 0)
  }

  lemma {:induction false} ValOnlyOne(n: nat, x: Word)
    requires n >= 2
    ensures Val(OnlyOne(n, x)) == LIMIT * x
  {
    var ws := OnlyOne(n, x);
    ValTwo(ws);
    ValZero(ws[2..]);
  }

  lemma {:induction false} LeftKeeps(ws: seq<Word>, w: nat, j: nat)
    requires j < w && j < |ws|
    ensures LeftFrom(ws, w)[j] == ws[j]
    decreases |ws| - w
  {
    if w + 1 < |ws| {
      hide Or, And, Shl;
      LeftKeeps(ws[w := Shl(ws[w])][w + 1 := Or(Shl(ws[w + 1]), if And(ws[w], TOP) != 0 then 1 else 0)], w + 1, j);
    }
  }

  /** One turn of BITFIELD_SHIFTL on words whose new values are known. */
  lemma {:induction false} LeftTurn(ws: seq<Word>, w: nat, x: Word, y: Word)
    requires w + 1 < |ws| && x == Shl(ws[w]) && y == if ws[w] >= TOP then Or(Shl(ws[w + 1]), 1) else Shl(ws[w + 1])
    ensures LeftFrom(ws, w) == LeftFrom(ws[w := x][w + 1 := y], w + 1)
  {
    TopBit(ws[w]);
    OrZero(Shl(ws[w + 1]));
    hide Or, And, Shl;
  }

  /** One turn of BITFIELD_SHIFTR. */
  lemma {:induction false} RightTurn(ws: seq<Word>, w: nat, x: Word, y: Word)
    requires 0 < w < |ws| && x == Shr(ws[w]) && y == if ws[w] % 2 == 1 then Or(Shr(ws[w - 1]), TOP) else Shr(ws[w - 1])
    ensures RightFrom(ws, w) == RightFrom(ws[w := x][w - 1 := y], w - 1)
  {
    LowBit(ws[w]);
    OrZero(Shr(ws[w - 1]));
    hide Or, And, Shr;
  }

  /** From three words on, the second word is shifted twice. */
  lemma {:induction false} WordOneMovesTwice(n: nat)
    requires n >= 3
    ensures var r := ShiftedLeft(OnlyOne(n, 1)); r[0] == 0 && r[1] == 4
  {
    hide LeftFrom, Or, And, AndN;
    var ws := OnlyOne(n, 1);
    LeftTurn(ws, 0, 0, 2);
    var x := ws[0 := 0][1 := 2];
    LeftTurn(x, 1, 4, 0);
    var y := x[1 := 4][2 := 0];
    LeftKeeps(y, 2, 0);
    LeftKeeps(y, 2, 1);
  }

  lemma {:induction false} BigModulus(n: nat)
    requires n >= 3
    ensures Pow2(BPW * n) > 2 * LIMIT
  {
    Pow2Word();
    Pow2Less(65, BPW * n);
    assert Pow2(65) == 2 * Pow2(64);
  }

  lemma {:induction false} ThreeWordsDoNotDouble(n: nat)
    requires n >= 3
    ensures !DoublesAll(n)
  {
    var ws := OnlyOne(n, 1);
    WordOneMovesTwice(n);
    var r := ShiftedLeft(ws);
    ValTwo(r);
    ValOnlyOne(n, 1);
    BigModulus(n);
    SmallRemainder(2 * LIMIT, Pow2(BPW * n));
    hide ShiftedLeft, Val, OnlyOne, Pow2;
    assert Val(r) >= 4 * LIMIT;
    assert |ws| == n && Val(ws) == LIMIT;
  }

  lemma {:induction false} SmallRemainder(x: nat, m: nat)
    requires x < m
    ensures x % m == x
  {
  }

  lemma {:induction false} RightOfZeros(ws: seq<Word>, w: nat)
    requires 2 <= w < |ws| && forall i :: 2 <= i < |ws| ==> ws[i] == 0
    ensures RightFrom(ws, w) == RightFrom(ws, 2)
    decreases w
  {
    if w > 2 {
      RightTurn(ws, w, 0, 0);
      assert ws[w := 0][w - 1 := 0] == ws;
      RightOfZeros(ws, w - 1);
    }
  }

  lemma {:induction false} FallenWords(ws: seq<Word>)
    requires |ws| >= 3 && ws[0] == 0 && ws[1] == 2 && forall i :: 2 <= i < |ws| ==> ws[i] == 0
    ensures var r := ws[2 := 0][1 := 1][1 := 0][0 := TOP]; r[0] == TOP && forall i :: 1 <= i < |ws| ==> r[i] == 0
  {
    hide *;
  }

  lemma {:induction false} WordOneFallsTwice(n: nat)
    requires n >= 3
    ensures var r := ShiftedRight(OnlyOne(n, 2)); r[0] == TOP && forall i :: 1 <= i < n ==> r[i] == 0
  {
    var ws := OnlyOne(n, 2);
    assert ShiftedRight(ws) == RightFrom(ws, n - 1);
    hide *;
    RightOfZeros(ws, n - 1);
    LastTurnsRight(ws);
    FallenWords(ws);
  }

  lemma {:induction false} SmallWords()
    ensures Shr(0) == 0 && Shr(1) == 0 && Shr(2) == 1 && Or(0, TOP) == TOP
  {
    OrTop(0);
  }

  lemma {:induction false} NoTurnsRight(ws: seq<Word>)
    ensures RightFrom(ws, 0) == ws
  {
  }

  lemma {:induction false} LastTurnsRight(ws: seq<Word>)
    requires |ws| >= 3 && ws[0] == 0 && ws[1] == 2 && ws[2] == 0
    ensures RightFrom(ws, 2) == ws[2 := 0][1 := 1][1 := 0][0 := TOP]
  {
    SmallWords();
    hide *;
    var x: seq<Word> := ws[2 := 0][1 := 1];
    RightTurn(ws, 2, 0, 1);
    RightTurn(x, 1, 0, TOP);
    NoTurnsRight(x[1 := 0][0 := TOP]);
  }

  lemma {:induction false} ThreeWordsDoNotHalve(n: nat)
    requires n >= 3
    ensures !HalvesAll(n)
  {
    var ws := OnlyOne(n, 2);
    WordOneFallsTwice(n);
    var r := ShiftedRight(ws);
    ValTwo(r);
    ValZero(r[2..]);
    ValOnlyOne(n, 2);
    hide ShiftedRight, Val, OnlyOne;
    assert Val(r) == TOP;
    assert Val(ws) / 2 == LIMIT;
  }

  lemma {:induction false} OneWordStays()
    ensures !DoublesAll(1) && !HalvesAll(1)
  {
    var ws: seq<Word> := [1];
    assert ws[1..] == [];
    assert Val(ws) == 1;
    assert ShiftedLeft(ws) == ws && ShiftedRight(ws) == ws;
    Pow2Word();
    assert Pow2(BPW * 1) == LIMIT;
  }

  /**
   * The two shifts are shifts by one position exactly for bit sets of two words: with one word they do
   * nothing, and from three words on (the default is four) the words between the ends move twice.
   */
  lemma {:induction false} ShiftsNeedTwoWords(n: nat)
    requires n > 0
    ensures DoublesAll(n) <==> n == 2
    ensures HalvesAll(n) <==> n == 2
  {
    if n == 1 {
      OneWordStays();
    } else if n == 2 {
      TwoWordsShift();
    } else {
      ThreeWordsDoNotDouble(n);
      ThreeWordsDoNotHalve(n);
    }
    hide *;
  }

  lemma {:induction false} TwoWordsShift()
    ensures DoublesAll(2) && HalvesAll(2)
  {
    hide ShiftedLeft, ShiftedRight, Val, Pow2;
    forall ws: seq<Word> | |ws| == 2
      ensures Val(ShiftedLeft(ws)) == 2 * Val(ws) % Pow2(BPW * 2) && Val(ShiftedRight(ws)) == Val(ws) / 2
    {
      TwoWordsDouble(ws);
      TwoWordsHalve(ws);
    }
  }
}
