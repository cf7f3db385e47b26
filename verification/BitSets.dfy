/** Sequences of words as sets of bit positions. */
module BitSets {
  import opened BitWords

  /** The positions of the bits set in ws. */
  function Members(ws: seq<Word>): (s: set<nat>)
    ensures forall i :: i in s <==> 0 <= i < BPW * |ws| && Bit(ws[i / BPW], i % BPW)
  {
    set i: nat | 0 <= i < BPW * |ws| && Bit(ws[i / BPW], i % BPW)
  }

  /** All positions of n words. */
  function Universe(n: nat): (s: set<nat>)
    ensures forall i :: i in s <==> 0 <= i < BPW * n
  {
    set i: nat | 0 <= i < BPW * n && Index(i)
  }

  predicate Index(i: int) {
    i >= 0
  }

  /** Bit i - base of n. */
  predicate BitFrom(n: nat, base: nat, i: nat) {
    base <= i && Bit(n, i - base)
  }

  // ----- the word-wise operations -----

  function OrWords(a: seq<Word>, b: seq<Word>): seq<Word>
    requires |a| == |b|
  {
    seq(|a|, i requires 0 <= i < |a| => Or(a[i], b[i]))
  }

  function AndWords(a: seq<Word>, b: seq<Word>): seq<Word>
    requires |a| == |b|
  {
    seq(|a|, i requires 0 <= i < |a| => And(a[i], b[i]))
  }

  function NotWords(a: seq<Word>): seq<Word> {
    seq(|a|, i requires 0 <= i < |a| => Not(a[i]))
  }

  lemma {:induction false} OrMembers(a: seq<Word>, b: seq<Word>)
    requires |a| == |b|
    ensures Members(OrWords(a, b)) == Members(a) + Members(b)
  {
    hide Or, Bit;
    forall i: nat | i < BPW * |a| ensures i in Members(OrWords(a, b)) <==> i in Members(a) + Members(b) {
      OrBit(a[i / BPW], b[i / BPW], i % BPW);
    }
  }

  lemma {:induction false} AndMembers(a: seq<Word>, b: seq<Word>)
    requires |a| == |b|
    ensures Members(AndWords(a, b)) == Members(a) * Members(b)
  {
    hide And, Bit;
    forall i: nat | i < BPW * |a| ensures i in Members(AndWords(a, b)) <==> i in Members(a) * Members(b) {
      AndBit(a[i / BPW], b[i / BPW], i % BPW);
      WordAnd(a[i / BPW], b[i / BPW]);
    }
  }

  lemma {:induction false} WordAnd(a: Word, b: Word)
    ensures And(a, b) == AndN(a, b)
  {
  }

  lemma {:induction false} NotMembers(a: seq<Word>)
    ensures Members(NotWords(a)) == Universe(|a|) - Members(a)
  {
    hide Not, Bit;
    forall i: nat | i < BPW * |a| ensures i in Members(NotWords(a)) <==> i in Universe(|a|) - Members(a) {
      NotBit(a[i / BPW], i % BPW);
    }
  }

  /** Words with the same members are the same words. */
  lemma {:induction false} MembersIdentify(a: seq<Word>, b: seq<Word>)
    requires |a| == |b|
    ensures Members(a) == Members(b) <==> a == b
  {
    hide Bit;
    if Members(a) == Members(b) {
      forall w | 0 <= w < |a| ensures a[w] == b[w] {
        forall i | 0 <= i < BPW ensures Bit(a[w], i) <==> Bit(b[w], i) {
          Position(w, i, |a|);
          assert BPW * w + i in Members(a) <==> BPW * w + i in Members(b);
        }
        Pow2Word();
        SameBits(a[w], b[w], BPW);
      }
    }
  }

  lemma {:induction false} Position(w: nat, i: nat, n: nat)
    requires w < n && i < BPW
    ensures BPW * w + i < BPW * n && (BPW * w + i) / BPW == w && (BPW * w + i) % BPW == i
  {
  }

  /** A set is empty when every word is zero. */
  lemma {:induction false} ZeroMembers(a: seq<Word>)
    ensures Members(a) == {} <==> forall w :: 0 <= w < |a| ==> a[w] == 0
  {
    hide Bit;
    var z: seq<Word> := seq(|a|, _ => 0);
    forall i: nat | i < BPW * |a| ensures i !in Members(z) {
      NoBits(i % BPW);
    }
    assert Members(z) == {};
    MembersIdentify(a, z);
    if a == z {
    } else {
      assert exists w :: 0 <= w < |a| && a[w] != z[w];
    }
  }

  // ----- cardinality -----

  /** The bits of one word, k of them, moved up by base. */
  function WordSet(n: nat, base: nat, k: nat): (s: set<nat>)
    ensures forall i :: i in s <==> base <= i < base + k && Bit(n, i - base)
  {
    set i: nat | base <= i < base + k && BitFrom(n, base, i)
  }

  lemma {:induction false} WordCount(n: nat, base: nat, k: nat)
    requires n < Pow2(k)
    ensures |WordSet(n, base, k)| == Ones(n)
    decreases k
  {
    if k == 0 {
      assert WordSet(n, base, k) == {};
    } else {
      WordCount(n / 2, base + 1, k - 1);
      var rest := WordSet(n / 2, base + 1, k - 1);
      var low := if n % 2 == 1 then {base} else {};
      assert WordSet(n, base, k) == low + rest by {
        forall i ensures i in WordSet(n, base, k) <==> i in low + rest {
          if base < i < base + k {
            assert Bit(n, i - base) <==> Bit(n / 2, i - base - 1);
          }
        }
      }
      assert low !! rest;
    }
  }

  function SumOnes(ws: seq<Word>): nat {
    if ws == [] then 0 else SumOnes(ws[..|ws| - 1]) + Ones(ws[|ws| - 1])
  }

  lemma {:induction false} MembersCount(ws: seq<Word>)
    ensures |Members(ws)| == SumOnes(ws)
    decreases |ws|
  {
    if ws == [] {
      assert Members(ws) == {};
    } else {
      var n := |ws| - 1;
      var front := ws[..n];
      MembersCount(front);
      Pow2Word();
      WordCount(ws[n], BPW * n, BPW);
      var top := WordSet(ws[n], BPW * n, BPW);
      assert Members(ws) == Members(front) + top by {
        hide Bit;
        forall i ensures i in Members(ws) <==> i in Members(front) + top {
          if 0 <= i < BPW * n {
            assert front[i / BPW] == ws[i / BPW];
          } else if BPW * n <= i < BPW * (n + 1) {
            assert i / BPW == n && i % BPW == i - BPW * n;
          }
        }
      }
      assert Members(front) !! top;
    }
  }

  // ----- the number that the words represent -----

  function Val(ws: seq<Word>): nat {
    if ws == [] then 0 else ws[0] + LIMIT * Val(ws[1..])
  }

  lemma {:induction false} ValTwo(ws: seq<Word>)
    requires |ws| >= 2
    ensures Val(ws) == ws[0] + LIMIT * (ws[1] + LIMIT * Val(ws[2..]))
  {
    assert ws[1..][1..] == ws[2..];
  }

  lemma {:induction false} ValZero(ws: seq<Word>)
    requires forall i :: 0 <= i < |ws| ==> ws[i] == 0
    ensures Val(ws) == 0
  {
    if ws != [] {
      ValZero(ws[1..]);
    }
  }
}
