/** The multiword bit set of src/include/bitfield.h. */
module Bitfields {
  import opened BitWords
  import opened BitSets

  /** The body of the loop of BITFIELD_NUM_ONES. */
  method CountOnes(word: Word) returns (cnt: nat)
    ensures cnt == Ones(word)
  {
    var n := word;
    cnt := 0;
    while n != 0
      invariant cnt + Ones(n) == Ones(word)
      decreases n
    {
      KernighanStep(n);
      n := And(n, n - 1);
      cnt := cnt + 1;
    }
  }

  /** Slides a single bit left until it meets the lowest one of n. */
  method LowestOne(n: Word) returns (k: nat)
    requires n != 0
    ensures k < BPW && Bit(n, k) && forall i :: 0 <= i < k ==> !Bit(n, i)
  {
    hide Bit, AndN;
    ghost var j := NonZeroBit(n);
    var x: Word := 1;
    k := 0;
    assert Pow2(0) == 1;
    TestBit(n, k);
    while And(n, x) == 0
      invariant k <= j && x == Pow2(k)
      invariant And(n, x) != 0 <==> Bit(n, k)
      invariant forall i :: 0 <= i < k ==> !Bit(n, i)
      decreases j - k
    {
      Pow2Word();
      Pow2Less(k, BPW);
      assert k < j;
      if k + 1 < BPW {
        Pow2Less(k + 1, BPW);
      }
      k, x := k + 1, Shl(x);
      TestBit(n, k);
    }
  }

  /** Slides a single bit right until it meets the highest one of n. down counts the steps. */
  method HighestOne(n: Word) returns (down: nat)
    requires n != 0
    ensures down < BPW && Bit(n, BPW - 1 - down) && forall i :: BPW - 1 - down < i < BPW ==> !Bit(n, i)
  {
    hide Bit, AndN;
    ghost var j := NonZeroBit(n);
    Pow2Word();
    var x: Word := TOP;
    down := 0;
    TestBit(n, 63);
    while And(n, x) == 0
      invariant j <= BPW - 1 - down && x == Pow2(BPW - 1 - down)
      invariant And(n, x) != 0 <==> Bit(n, BPW - 1 - down)
      invariant forall i :: BPW - 1 - down < i < BPW ==> !Bit(n, i)
      decreases BPW - down
    {
      assert j < BPW - 1 - down;
      down, x := down + 1, Shr(x);
      TestBit(n, BPW - 1 - down);
    }
  }

  class Bitfield {
    /** _bits; BITFIELD_WORDS is its length and BITFIELD_SIZE 64 times that. */
    const bits: array<Word>

    constructor (words: nat)
      requires words > 0
      ensures fresh(bits) && bits.Length == words
    {
      bits := new Word[words];
    }

    ghost function Set(): set<nat>
      reads bits
    {
      Members(bits[..])
    }

    method ClrAll()
      modifies bits
      ensures Set() == {}
    {
      for w := 0 to bits.Length
        invariant forall i :: 0 <= i < w ==> bits[i] == 0
      {
        bits[w] := 0;
      }
      ZeroMembers(bits[..]);
    }

    method SetAll()
      modifies bits
      ensures Set() == Universe(bits.Length)
    {
      for w := 0 to bits.Length
        invariant forall i :: 0 <= i < w ==> bits[i] == LIMIT - 1
      {
        bits[w] := LIMIT - 1;
      }
      ghost var z: seq<Word> := seq(bits.Length, _ => 0);
      ZeroMembers(z);
      NotMembers(z);
      assert bits[..] == NotWords(z);
    }

    method SetB(bit: int)
      modifies bits
      ensures Set() == old(Set()) + if 0 <= bit < BPW * bits.Length then {bit} else {}
    {
      if 0 <= bit < BPW * bits.Length {
        ghost var a := bits[..];
        bits[bit / BPW] := Or(bits[bit / BPW], OneAt(bit % BPW));
        ghost var m := Single(bit, bits.Length);
        ZeroOr(a, m, bit);
        assert bits[..] == OrWords(a, m);
        OrMembers(a, m);
      }
    }

    method ClrB(bit: int)
      modifies bits
      ensures Set() == old(Set()) - {bit}
    {
      if 0 <= bit < BPW * bits.Length {
        ghost var a := bits[..];
        bits[bit / BPW] := And(bits[bit / BPW], Not(OneAt(bit % BPW)));
        ghost var m := Single(bit, bits.Length);
        FullAnd(a, m, bit);
        assert bits[..] == AndWords(a, NotWords(m));
        NotMembers(m);
        AndMembers(a, NotWords(m));
      }
    }

    method TstB(bit: int) returns (r: bool)
      ensures r <==> bit in Set()
    {
      if 0 <= bit < BPW * bits.Length {
        r := And(bits[bit / BPW], OneAt(bit % BPW)) != 0;
        TestBit(bits[bit / BPW], bit % BPW);
      } else {
        r := false;
      }
    }

    method IsZero() returns (r: int)
      ensures r == if Set() == {} then 1 else 0
    {
      ZeroMembers(bits[..]);
      for w := 0 to bits.Length
        invariant forall i :: 0 <= i < w ==> bits[i] == 0
      {
        if bits[w] != 0 {
          assert bits[..][w] != 0;
          return 0;
        }
      }
      r := 1;
    }

    method IsOnes() returns (r: int)
      ensures r == if Set() == Universe(bits.Length) then 1 else 0
    {
      ghost var z: seq<Word> := seq(bits.Length, _ => 0);
      ZeroMembers(z);
      NotMembers(z);
      MembersIdentify(bits[..], NotWords(z));
      for w := 0 to bits.Length
        invariant forall i :: 0 <= i < w ==> bits[i] == LIMIT - 1
      {
        if bits[w] != LIMIT - 1 {
          assert bits[..][w] != NotWords(z)[w];
          return 0;
        }
      }
      assert bits[..] == NotWords(z);
      r := 1;
    }

    method NumOnes() returns (cnt: nat)
      ensures cnt == |Set()|
    {
      cnt := 0;
      for w := 0 to bits.Length
        invariant cnt == SumOnes(bits[..w])
      {
        var c := CountOnes(bits[w]);
        assert bits[..w + 1][..w] == bits[..w];
        cnt := cnt + c;
      }
      assert bits[..bits.Length] == bits[..];
      MembersCount(bits[..]);
    }

    method LsOne() returns (bit: int)
      ensures if Set() == {} then bit == -1 else bit in Set() && forall i <- Set() :: bit <= i
    {
      ZeroMembers(bits[..]);
      var w := 0;
      bit := 0;
      while w < bits.Length && bits[w] == 0
        invariant 0 <= w <= bits.Length && bit == BPW * w
        invariant forall v :: 0 <= v < w ==> bits[v] == 0
      {
        bit, w := bit + BPW, w + 1;
      }
      if w == bits.Length {
        return -1;
      }
      var k := LowestOne(bits[w]);
      bit := bit + k;
      LowestMember(bits[..], w, k);
    }

    method MsOne() returns (bit: int)
      ensures if Set() == {} then bit == -1 else bit in Set() && forall i <- Set() :: i <= bit
    {
      ZeroMembers(bits[..]);
      var w := bits.Length - 1;
      bit := BPW * bits.Length - 1;
      while w >= 0 && bits[w] == 0
        invariant -1 <= w < bits.Length && bit == BPW * (w + 1) - 1
        invariant forall v :: w < v < bits.Length ==> bits[v] == 0
      {
        bit, w := bit - BPW, w - 1;
      }
      if w < 0 {
        return -1;
      }
      var down := HighestOne(bits[w]);
      bit := bit - down;
      HighestMember(bits[..], w, BPW - 1 - down);
    }

    method Eq(q: Bitfield) returns (r: int)
      requires q.bits.Length == bits.Length
      ensures r == if Set() == q.Set() then 1 else 0
    {
      MembersIdentify(bits[..], q.bits[..]);
      for w := 0 to bits.Length
        invariant forall i :: 0 <= i < w ==> bits[i] == q.bits[i]
      {
        if bits[w] != q.bits[w] {
          assert bits[..][w] != q.bits[..][w];
          return 0;
        }
      }
      assert bits[..] == q.bits[..];
      r := 1;
    }

    // The masks: mask may be the bitfield itself.

    method SetM(mask: Bitfield)
      requires mask.bits.Length == bits.Length
      modifies bits
      ensures Set() == old(Set()) + old(mask.Set())
    {
      ghost var a, m := bits[..], mask.bits[..];
      for w := 0 to bits.Length
        invariant forall i :: w <= i < bits.Length ==> bits[i] == a[i] && mask.bits[i] == m[i]
        invariant forall i :: 0 <= i < w ==> bits[i] == Or(a[i], m[i])
      {
        bits[w] := Or(bits[w], mask.bits[w]);
      }
      assert bits[..] == OrWords(a, m);
      OrMembers(a, m);
    }

    method ClrM(mask: Bitfield)
      requires mask.bits.Length == bits.Length
      modifies bits
      ensures Set() == old(Set()) - old(mask.Set())
    {
      ghost var a, m := bits[..], mask.bits[..];
      for w := 0 to bits.Length
        invariant forall i :: w <= i < bits.Length ==> bits[i] == a[i] && mask.bits[i] == m[i]
        invariant forall i :: 0 <= i < w ==> bits[i] == And(a[i], Not(m[i]))
      {
        bits[w] := And(bits[w], Not(mask.bits[w]));
      }
      assert bits[..] == AndWords(a, NotWords(m));
      NotMembers(m);
      AndMembers(a, NotWords(m));
    }

    method AndM(mask: Bitfield)
      requires mask.bits.Length == bits.Length
      modifies bits
      ensures Set() == old(Set()) * old(mask.Set())
    {
      ghost var a, m := bits[..], mask.bits[..];
      for w := 0 to bits.Length
        invariant forall i :: w <= i < bits.Length ==> bits[i] == a[i] && mask.bits[i] == m[i]
        invariant forall i :: 0 <= i < w ==> bits[i] == And(a[i], m[i])
      {
        bits[w] := And(bits[w], mask.bits[w]);
      }
      assert bits[..] == AndWords(a, m);
      AndMembers(a, m);
    }

    method OrNotM(q: Bitfield)
      requires q.bits.Length == bits.Length
      modifies bits
      ensures Set() == old(Set()) + (Universe(bits.Length) - old(q.Set()))
    {
      ghost var a, m := bits[..], q.bits[..];
      for w := 0 to bits.Length
        invariant forall i :: w <= i < bits.Length ==> bits[i] == a[i] && q.bits[i] == m[i]
        invariant forall i :: 0 <= i < w ==> bits[i] == Or(a[i], Not(m[i]))
      {
        bits[w] := Or(bits[w], Not(q.bits[w]));
      }
      assert bits[..] == OrWords(a, NotWords(m));
      NotMembers(m);
      OrMembers(a, NotWords(m));
    }

    method CpyNotM(q: Bitfield)
      requires q.bits.Length == bits.Length
      modifies bits
      ensures Set() == Universe(bits.Length) - old(q.Set())
    {
      ghost var m := q.bits[..];
      for w := 0 to bits.Length
        invariant forall i :: w <= i < bits.Length ==> q.bits[i] == m[i]
        invariant forall i :: 0 <= i < w ==> bits[i] == Not(m[i])
      {
        bits[w] := Not(q.bits[w]);
      }
      assert bits[..] == NotWords(m);
      NotMembers(m);
    }

    method TstM(mask: Bitfield) returns (r: int)
      requires mask.bits.Length == bits.Length
      ensures r == if Set() * mask.Set() != {} then 1 else 0
    {
      ghost var both := AndWords(bits[..], mask.bits[..]);
      AndMembers(bits[..], mask.bits[..]);
      ZeroMembers(both);
      for w := 0 to bits.Length
        invariant forall i :: 0 <= i < w ==> both[i] == 0
      {
        if And(bits[w], mask.bits[w]) != 0 {
          assert both[w] != 0;
          return 1;
        }
      }
      r := 0;
    }

    method TstAllM(mask: Bitfield) returns (r: int)
      requires mask.bits.Length == bits.Length
      ensures r == if mask.Set() <= Set() then 1 else 0
    {
      ghost var both := AndWords(bits[..], mask.bits[..]);
      AndMembers(bits[..], mask.bits[..]);
      MembersIdentify(both, mask.bits[..]);
      for w := 0 to bits.Length
        invariant forall i :: 0 <= i < w ==> both[i] == mask.bits[i]
      {
        if And(bits[w], mask.bits[w]) != mask.bits[w] {
          assert both[w] != mask.bits[..][w];
          return 0;
        }
      }
      assert both == mask.bits[..];
      r := 1;
    }
  }

  /** n words with only the given position set. */
  ghost function Single(bit: nat, n: nat): (m: seq<Word>)
    requires bit < BPW * n
    ensures |m| == n
  {
    seq(n, w => if w == bit / BPW then OneAt(bit % BPW) else 0)
  }

  lemma {:induction false} SingleMembers(bit: nat, n: nat)
    requires bit < BPW * n
    ensures Members(Single(bit, n)) == {bit}
  {
    var m := Single(bit, n);
    hide Bit;
    forall i: nat | i < BPW * n ensures i in Members(m) <==> i == bit {
      if i / BPW == bit / BPW {
        Pow2Bit(bit % BPW, i % BPW);
      } else {
        NoBits(i % BPW);
      }
    }
  }

  /** Or with a single position changes one word only. */
  lemma {:induction false} ZeroOr(a: seq<Word>, m: seq<Word>, bit: nat)
    requires bit < BPW * |a| && m == Single(bit, |a|)
    ensures forall w :: 0 <= w < |a| && w != bit / BPW ==> Or(a[w], m[w]) == a[w]
    ensures Members(m) == {bit}
  {
    SingleMembers(bit, |a|);
    forall w | 0 <= w < |a| && w != bit / BPW ensures Or(a[w], m[w]) == a[w] {
      Pow2Word();
      AndAllOnes(Not(a[w]), 64);
    }
  }

  lemma {:induction false} FullAnd(a: seq<Word>, m: seq<Word>, bit: nat)
    requires bit < BPW * |a| && m == Single(bit, |a|)
    ensures forall w :: 0 <= w < |a| && w != bit / BPW ==> And(a[w], Not(m[w])) == a[w]
    ensures Members(m) == {bit}
  {
    SingleMembers(bit, |a|);
    forall w | 0 <= w < |a| && w != bit / BPW ensures And(a[w], Not(m[w])) == a[w] {
      Pow2Word();
      AndAllOnes(a[w], 64);
    }
  }

  lemma {:induction false} LowestMember(ws: seq<Word>, w: nat, k: nat)
    requires w < |ws| && k < BPW && Bit(ws[w], k)
    requires forall v :: 0 <= v < w ==> ws[v] == 0
    requires forall i :: 0 <= i < k ==> !Bit(ws[w], i)
    ensures BPW * w + k in Members(ws) && forall i <- Members(ws) :: BPW * w + k <= i
  {
    hide Bit;
    Position(w, k, |ws|);
    forall i | i in Members(ws) ensures BPW * w + k <= i {
      if i / BPW < w {
        NoBits(i % BPW);
      }
    }
  }

  lemma {:induction false} HighestMember(ws: seq<Word>, w: nat, k: nat)
    requires w < |ws| && k < BPW && Bit(ws[w], k)
    requires forall v :: w < v < |ws| ==> ws[v] == 0
    requires forall i :: k < i < BPW ==> !Bit(ws[w], i)
    ensures BPW * w + k in Members(ws) && forall i <- Members(ws) :: i <= BPW * w + k
  {
    hide Bit;
    Position(w, k, |ws|);
    forall i | i in Members(ws) ensures i <= BPW * w + k {
      if i / BPW > w {
        NoBits(i % BPW);
      }
    }
  }
}
