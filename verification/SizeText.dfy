/** Sizes as qstat prints them (cnv_size, src/cmds/qstat.c:625-688). */
module SizeText {
  import opened BitWords
  import opened Rounding

  const MAX_PRINTED := 9999

  /** sift_factor[out][in]: the number of places to shift, to the left when positive. */
  const SIFT_FACTOR: seq<seq<int>> := [
    [  0,  10,  20,  30, 40],
    [-10,   0,  10,  20, 30],
    [-20, -10,   0,  10, 20],
    [-30, -20, -10,   0, 10],
    [-40, -30, -20, -10,  0]]

  /** suffixletter */
  const SUFFIX := " kmgtp?"

  /** ALT_DISPLAY_Mb, ALT_DISPLAY_Mw and ALT_DISPLAY_G in opt. */
  datatype Options = Options(mb: bool, mw: bool, g: bool)

  /** The number printed, the index of the first suffix letter, and whether the second one is w. */
  datatype Printed = Printed(nval: nat, out: nat, words: bool)

  /** The magnitude that the letter behind the digits stands for. */
  function Magnitude(c: char): nat
    ensures Magnitude(c) <= 4
  {
    if c == 'k' then 1 else if c == 'm' then 2 else if c == 'g' then 3 else if c == 't' then 4 else 0
  }

  /** The size in bytes of number followed by the characters c0 and c1. */
  function InBytes(number: nat, c0: char, c1: char): nat {
    (if c0 == 'w' || c1 == 'w' then 8 * number else number) * Kilo(Magnitude(c0))
  }

  /** Where printing starts, and whether it is in words. */
  function StartUnit(c0: char, opt: Options): nat
    ensures StartUnit(c0, opt) <= 4
  {
    if opt.mb || opt.mw then 2 else if opt.g then 3 else Magnitude(c0)
  }

  function InWords(c0: char, c1: char, opt: Options): bool {
    if opt.mb || opt.mw then opt.mw else if opt.g then false else c0 == 'w' || c1 == 'w'
  }

  /** The exact size, rounded up once, in the unit out. */
  function Exact(bytes: nat, words: bool, out: nat): nat {
    Positive(if words then 8 else 1, Kilo(out));
    CeilDiv(bytes, (if words then 8 else 1) * Kilo(out))
  }

  /** What the letters mean, in numbers. */
  lemma {:induction false} LettersMean(number: nat, c0: char, c1: char)
    ensures
      var n := if c0 == 'w' || c1 == 'w' then 8 * number else number;
      && (c0 == 'k' ==> InBytes(number, c0, c1) == 1024 * n)
      && (c0 == 'm' ==> InBytes(number, c0, c1) == 1048576 * n)
      && (c0 == 'g' ==> InBytes(number, c0, c1) == 1073741824 * n)
      && (c0 == 't' ==> InBytes(number, c0, c1) == 1099511627776 * n)
      && (c0 !in {'k', 'm', 'g', 't'} ==> InBytes(number, c0, c1) == n)
  {
    KiloNumbers();
    hide Kilo;
  }

  /** The unit that printing starts with is what the option asks for, else what the letter behind the digits says. */
  lemma {:induction false} OptionsMean(c0: char, c1: char, opt: Options)
    ensures opt.mb || opt.mw ==> Kilo(StartUnit(c0, opt)) == 1048576 && (InWords(c0, c1, opt) <==> opt.mw)
    ensures opt.g && !opt.mb && !opt.mw ==> Kilo(StartUnit(c0, opt)) == 1073741824 && !InWords(c0, c1, opt)
    ensures opt == Options(false, false, false) ==>
              && InBytes(1, c0, c1) == (if InWords(c0, c1, opt) then 8 else 1) * Kilo(StartUnit(c0, opt))
              && (InWords(c0, c1, opt) <==> c0 == 'w' || c1 == 'w')
  {
    KiloNumbers();
    hide Kilo;
  }

  /** What is printed is the least number of units that holds the bytes; a unit of words has eight times the bytes. */
  lemma {:induction false} ExactIsLeast(bytes: nat, words: bool, out: nat)
    ensures
      var u, n := (if words then 8 else 1) * Kilo(out), Exact(bytes, words, out);
      bytes <= u * n && (n > 0 ==> u * (n - 1) < bytes)
  {
    hide Kilo, CeilDiv;
    Positive(if words then 8 else 1, Kilo(out));
    LeastMultiple(bytes, (if words then 8 else 1) * Kilo(out));
  }

  /** number is what strtol read, c0 and c1 the two characters behind it. */
  method CnvSize(number: nat, c0: char, c1: char, opt: Options) returns (r: Printed)
    ensures r.words == InWords(c0, c1, opt)
    ensures r.nval == Exact(InBytes(number, c0, c1), r.words, r.out)
    ensures r.nval <= MAX_PRINTED && StartUnit(c0, opt) <= r.out
    ensures forall u :: StartUnit(c0, opt) <= u < r.out ==> Exact(InBytes(number, c0, c1), r.words, u) > MAX_PRINTED
  {
    var nval := number;
    var given := if c0 == 'k' then 1 else if c0 == 'm' then 2 else if c0 == 'g' then 3 else if c0 == 't' then 4 else 0;
    var words := false;
    if c0 == 'w' || c1 == 'w' {
      nval := nval * Pow2(3);
      words := true;
    }
    ghost var bytes := InBytes(number, c0, c1);
    assert bytes == nval * Kilo(given) by {
      WordBytes();
    }
    hide Kilo, Pow2, CeilDiv, Exact;
    var out;
    if opt.mb || opt.mw {
      out := 2;
      words := opt.mw;
    } else if opt.g {
      out := 3;
      words := false;
    } else {
      out := given;
    }
    nval := Sift(nval, given, out);
    if words {
      ExactWords(bytes, out);
      nval := (nval + 7) / Pow2(3);
    } else {
      ExactBytes(bytes, out);
    }
    while nval > MAX_PRINTED
      invariant StartUnit(c0, opt) <= out
      invariant nval == Exact(bytes, words, out)
      invariant forall u :: StartUnit(c0, opt) <= u < out ==> Exact(bytes, words, u) > MAX_PRINTED
      decreases nval
    {
      NextUnit(bytes, words, out);
      nval := (nval + 1023) / 1024;
      out := out + 1;
    }
    r := Printed(nval, out, words);
  }

  /** The table lookup and the shift: nval in the unit given becomes the size in the unit out, rounded up. */
  method Sift(nval: nat, given: nat, out: nat) returns (r: nat)
    requires given <= 4 && out <= 4
    ensures r == CeilDiv(nval * Kilo(given), Kilo(out))
  {
    hide Kilo, Pow2, CeilDiv;
    var sft := SIFT_FACTOR[out][given];
    TableIsLinear(given, out);
    r := nval;
    if sft < 0 {
      SiftDown(nval, given, out);
      r := nval + (Pow2(-sft) - 1);
      r := r / Pow2(-sft);
    } else if sft > 0 {
      SiftUp(nval, given, out);
      r := nval * Pow2(sft);
    } else {
      Whole(r, Kilo(out));
    }
  }

  lemma {:induction false} SiftDown(nval: nat, given: nat, out: nat)
    requires given < out
    ensures var p := Pow2(10 * (out - given)); (nval + (p - 1)) / p == CeilDiv(nval * Kilo(given), Kilo(out))
  {
    KiloIsPow2(out - given);
    KiloAdd(out - given, given);
    CeilCancel(nval, Kilo(out - given), Kilo(given));
  }

  lemma {:induction false} SiftUp(nval: nat, given: nat, out: nat)
    requires out < given
    ensures nval * Pow2(10 * (given - out)) == CeilDiv(nval * Kilo(given), Kilo(out))
  {
    hide Kilo, Pow2, CeilDiv;
    KiloIsPow2(given - out);
    KiloAdd(given - out, out);
    MulAssoc(nval, Kilo(given - out), Kilo(out));
    Whole(nval * Kilo(given - out), Kilo(out));
  }

  lemma {:induction false} TableIsLinear(given: nat, out: nat)
    requires given <= 4 && out <= 4
    ensures SIFT_FACTOR[out][given] == 10 * (given - out)
  {
  }

  /** A multiple is divided without rounding. */
  lemma {:induction false} Whole(n: nat, k: nat)
    requires k > 0
    ensures CeilDiv(n * k, k) == n
  {
    CeilIs(n * k, k, n);
  }

  lemma {:induction false} WordBytes()
    ensures Pow2(3) == 8
  {
    assert Pow2(2) == 4;
  }

  lemma {:induction false} ExactBytes(bytes: nat, out: nat)
    ensures Exact(bytes, false, out) == CeilDiv(bytes, Kilo(out))
  {
    assert 1 * Kilo(out) == Kilo(out);
  }

  lemma {:induction false} ExactWords(bytes: nat, out: nat)
    ensures (CeilDiv(bytes, Kilo(out)) + 7) / Pow2(3) == Exact(bytes, true, out)
  {
    WordBytes();
    CeilCeil(bytes, Kilo(out), 8);
    assert Kilo(out) * 8 == 8 * Kilo(out);
  }

  lemma {:induction false} NextUnit(bytes: nat, words: bool, out: nat)
    ensures (Exact(bytes, words, out) + 1023) / 1024 == Exact(bytes, words, out + 1)
    ensures CeilDiv(Exact(bytes, words, out), 1024) == Exact(bytes, words, out + 1)
  {
    var w := if words then 8 else 1;
    Positive(w, Kilo(out));
    CeilCeil(bytes, w * Kilo(out), 1024);
    assert w * Kilo(out) * 1024 == w * Kilo(out + 1);
  }

  /** A larger unit never prints a larger number. */
  lemma {:induction false} ExactShrinks(bytes: nat, words: bool, u: nat, v: nat)
    requires u <= v
    ensures Exact(bytes, words, v) <= Exact(bytes, words, u)
  {
    if u < v {
      ExactShrinks(bytes, words, u, v - 1);
      NextUnit(bytes, words, v - 1);
      CeilShrinks(Exact(bytes, words, v - 1), 1024);
    }
  }

  /**
   * A suffix letter exists for the unit that the loop ends with if and only if the size fits the largest
   * unit of the table of letters; beyond it, the letter is read from behind the table.
   */
  lemma {:induction false} SuffixExists(bytes: nat, words: bool, start: nat, out: nat)
    requires start <= 4 && start <= out && Exact(bytes, words, out) <= MAX_PRINTED
    requires forall u :: start <= u < out ==> Exact(bytes, words, u) > MAX_PRINTED
    ensures out < |SUFFIX| <==> Exact(bytes, words, |SUFFIX| - 1) <= MAX_PRINTED
  {
    if out < |SUFFIX| {
      ExactShrinks(bytes, words, out, |SUFFIX| - 1);
    } else {
      assert start <= |SUFFIX| - 1 < out;
    }
  }
}
