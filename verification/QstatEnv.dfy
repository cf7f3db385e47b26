/** qstat's splitter of the Variable_List attribute (prt_attr, src/cmds/qstat.c:395-418). */
module QstatEnv {
  import opened CText
  import opened CommaEscape

  /** One JSON node: the value is absent when no '=' was seen. */
  datatype Pair = Pair(key: string, val: Option<string>)

  /** What the inner loop leaves, or that it copied the terminator and ran past it. */
  datatype Scanned = Scanned(pair: Pair, rest: string) | Overrun

  /** The inner loop, with the key and the value collected so far. */
  function ScanPair(s: string, key: string, val: Option<string>): (r: Scanned)
    ensures r.Scanned? ==> |r.rest| <= |s| && (r.rest == "" || r.rest[0] == ',')
    decreases |s|
  {
    if s == "" || s[0] == ',' then Scanned(Pair(key, val), s)
    else
      var v := if s[0] == ESC && At(s, 1) == ',' then s[1..] else s;
      match val
      case Some(x) => ScanPair(v[1..], key, Some(x + [v[0]]))
      case None =>
        if v[0] != '=' then ScanPair(v[1..], key + [v[0]], None)
        else if |v| == 1 then Overrun
        else ScanPair(v[2..], key, Some([v[1]]))
  }

  /** All the pairs of a value; None when the splitter runs past the terminator. */
  function Split(s: string): Option<seq<Pair>>
    decreases |s|
  {
    if s == "" then Some([])
    else match ScanPair(s, "", None)
      case Overrun => None
      case Scanned(p, rest) =>
        Prepend([p], if rest == "" then Some([]) else Split(rest[1..]))
  }

  function Prepend(ps: seq<Pair>, r: Option<seq<Pair>>): Option<seq<Pair>> {
    match r
    case None => None
    case Some(qs) => Some(ps + qs)
  }

  /** nodes are the JSON nodes added, in order. */
  method PrtAttrV(attrValue: string) returns (nodes: seq<Pair>, overrun: bool)
    ensures Split(attrValue) == if overrun then None else Some(nodes)
  {
    nodes, overrun := [], false;
    var value := attrValue;
    PrependNothing(Split(value));
    while value != ""
      invariant !overrun
      invariant Split(attrValue) == Prepend(nodes, Split(value))
      decreases |value|
    {
      ghost var s := value;
      var key, val: Option<string> := "", None;
      while value != "" && value[0] != ','
        invariant ScanPair(s, "", None) == ScanPair(value, key, val)
        invariant |value| <= |s|
        decreases |value|
      {
        if value[0] == ESC && At(value, 1) == ',' {
          value := value[1..];
        }
        if val.None? && value[0] == '=' {
          value := value[1..];
          if value == "" {
            return nodes, true;
          }
          val := Some([value[0]]);
        } else if val.None? {
          key := key + [value[0]];
        } else {
          val := Some(val.value + [value[0]]);
        }
        value := value[1..];
      }
      ghost var was := nodes;
      nodes := nodes + [Pair(key, val)];
      assert ScanPair(s, "", None) == Scanned(Pair(key, val), value);
      if value != "" {
        value := value[1..];
      }
      PrependTwice(was, Pair(key, val), Split(value));
    }
    assert nodes + [] == nodes;
  }

  lemma {:induction false} PrependNothing(r: Option<seq<Pair>>)
    ensures Prepend([], r) == r
  {
    if r.Some? {
      assert [] + r.value == r.value;
    }
  }

  lemma {:induction false} PrependTwice(ps: seq<Pair>, p: Pair, r: Option<seq<Pair>>)
    ensures Prepend(ps, Prepend([p], r)) == Prepend(ps + [p], r)
  {
    if r.Some? {
      assert ps + ([p] + r.value) == ps + [p] + r.value;
    }
  }

  // ----- scanning escaped entries -----

  predicate CleanKey(k: string) {
    forall i :: 0 <= i < |k| ==> k[i] !in {',', '=', ESC}
  }

  lemma {:induction false} KeyScan(k: string, x: string, acc: string)
    requires CleanKey(k)
    ensures ScanPair(k + "=" + x, acc, None)
         == if x == "" then Overrun else ScanPair(x[1..], acc + k, Some([x[0]]))
  {
    var s := k + "=" + x;
    if k == "" {
      assert s == "=" + x && acc + k == acc;
      assert s[1..] == x;
    } else {
      assert s[1..] == k[1..] + "=" + x;
      KeyScan(k[1..], x, acc + [k[0]]);
      assert acc + [k[0]] + k[1..] == acc + k;
    }
  }

  lemma {:induction false} ValueScan(w: string, t: string, key: string, acc: string)
    requires AtEnd(t) && (t == "" || w == "" || w[|w| - 1] != ESC)
    ensures ScanPair(EscCommas(w) + t, key, Some(acc)) == Scanned(Pair(key, Some(acc + w)), t)
  {
    if w == "" {
      assert EscCommas(w) + t == t && acc + w == acc;
    } else {
      hide ScanPair, EscCommas;
      ValueScan(w[1..], t, key, acc + [w[0]]);
      ValueTurn(w, t, key, acc);
      assert acc + [w[0]] + w[1..] == acc + w;
    }
  }

  lemma {:induction false} ValueTurn(w: string, t: string, key: string, acc: string)
    requires w != "" && (|w| == 1 && w[0] == ESC ==> At(t, 0) != ',')
    ensures ScanPair(EscCommas(w) + t, key, Some(acc)) == ScanPair(EscCommas(w[1..]) + t, key, Some(acc + [w[0]]))
  {
    var x := EscCommas(w[1..]) + t;
    if w[0] == ',' {
      assert EscCommas(w) + t == [ESC, ','] + x;
      EscapedTurn(x, key, acc);
    } else {
      assert EscCommas(w) + t == [w[0]] + x;
      assert w[0] == ESC ==> At(x, 0) != ',' by {
        if |w| > 1 {
          assert x[0] == EscCommas(w[1..])[0];
        }
      }
      PlainTurn(w[0], x, key, acc);
    }
  }

  lemma {:induction false} EscapedTurn(x: string, key: string, acc: string)
    ensures ScanPair([ESC, ','] + x, key, Some(acc)) == ScanPair(x, key, Some(acc + [',']))
  {
    assert ([ESC, ','] + x)[1..][1..] == x;
  }

  lemma {:induction false} PlainTurn(c: char, x: string, key: string, acc: string)
    requires c != ',' && (c == ESC ==> At(x, 0) != ',')
    ensures ScanPair([c] + x, key, Some(acc)) == ScanPair(x, key, Some(acc + [c]))
  {
    assert ([c] + x)[1..] == x;
  }

  /** A backslash at the end of a value that is not the last one swallows the comma behind it. */
  lemma {:induction false} ValueSwallows(w: string, t: string, key: string, acc: string)
    requires w != "" && w[|w| - 1] == ESC && t != "" && t[0] == ','
    ensures var r := ScanPair(EscCommas(w) + t, key, Some(acc));
            r.Scanned? && r.pair.val.Some? && acc + w[..|w| - 1] + [','] <= r.pair.val.value
  {
    if |w| == 1 {
      assert EscCommas(w) + t == [ESC, ','] + t[1..];
      EscapedTurn(t[1..], key, acc);
      Collects(t[1..], key, acc + [',']);
      assert acc + w[..0] + [','] == acc + [','];
    } else {
      hide ScanPair, EscCommas;
      ValueTurn(w, t, key, acc);
      ValueSwallows(w[1..], t, key, acc + [w[0]]);
      assert acc + [w[0]] + w[1..][..|w| - 2] == acc + w[..|w| - 1];
    }
  }

  /** Once the value has begun, the scan only appends to it and cannot overrun. */
  lemma {:induction false} Collects(s: string, key: string, acc: string)
    ensures var r := ScanPair(s, key, Some(acc));
            r.Scanned? && r.pair.val.Some? && acc <= r.pair.val.value
    decreases |s|
  {
    if s != "" && s[0] != ',' {
      var v := if s[0] == ESC && At(s, 1) == ',' then s[1..] else s;
      Collects(v[1..], key, acc + [v[0]]);
    }
  }

  // ----- entries -----

  /** When an entry survives, given whether it is the last of the list. */
  predicate Splittable(e: Entry, last: bool) {
    && e.value != ""
    && e.value[0] != ','
    && (last || |e.value| == 1 || e.value[|e.value| - 1] != ESC)
  }

  lemma {:induction false} EntrySplits(e: Entry, t: string)
    requires CleanKey(e.key) && AtEnd(t) && Splittable(e, t == "")
    ensures ScanPair(e.Text() + t, "", None) == Scanned(Pair(e.key, Some(e.value)), t)
  {
    hide ScanPair;
    var v := e.value;
    var x := EscCommas(v) + t;
    assert x == [v[0]] + (EscCommas(v[1..]) + t);
    assert e.Text() + t == e.key + "=" + x;
    KeyScan(e.key, x, "");
    assert "" + e.key == e.key;
    assert x[1..] == EscCommas(v[1..]) + t;
    ValueScan(v[1..], t, e.key, [v[0]]);
    assert [v[0]] + v[1..] == v;
  }

  lemma {:induction false} EntryLost(e: Entry, t: string)
    requires CleanKey(e.key) && AtEnd(t) && !Splittable(e, t == "")
    ensures var r := ScanPair(e.Text() + t, "", None); r.Scanned? ==> r.pair != Pair(e.key, Some(e.value))
  {
    hide ScanPair;
    var v := e.value;
    var x := EscCommas(v) + t;
    assert e.Text() + t == e.key + "=" + x;
    KeyScan(e.key, x, "");
    assert "" + e.key == e.key;
    if v == "" {
      if t != "" {
        Collects(x[1..], e.key, [x[0]]);
      }
    } else if v[0] == ',' {
      Collects(x[1..], e.key, [x[0]]);
    } else {
      assert x[1..] == EscCommas(v[1..]) + t;
      ValueSwallows(v[1..], t, e.key, [v[0]]);
      var n := |v| - 1;
      assert ([v[0]] + v[1..][..n - 1] + [','])[n] == ',';
    }
  }

  function Pairs(es: seq<Entry>): seq<Pair> {
    if es == [] then [] else [Pair(es[0].key, Some(es[0].value))] + Pairs(es[1..])
  }

  predicate AllSplittable(es: seq<Entry>)
    ensures AllSplittable(es) <==> forall i :: 0 <= i < |es| ==> Splittable(es[i], i == |es| - 1)
  {
    if es == [] then true
    else
      var r := Splittable(es[0], |es| == 1) && AllSplittable(es[1..]);
      assert r ==> forall i :: 0 <= i < |es| ==> Splittable(es[i], i == |es| - 1) by {
        if r {
          forall i | 0 <= i < |es| ensures Splittable(es[i], i == |es| - 1) {
            if i > 0 {
              assert Splittable(es[1..][i - 1], i - 1 == |es| - 2);
            }
          }
        }
      }
      assert !AllSplittable(es[1..]) ==> exists i :: 0 <= i < |es| && !Splittable(es[i], i == |es| - 1) by {
        if !AllSplittable(es[1..]) {
          var j :| 0 <= j < |es| - 1 && !Splittable(es[1..][j], j == |es| - 2);
          assert es[1..][j] == es[j + 1];
        }
      }
      r
  }

  /**
   * qstat gives back the list that qsub joined, keys and values in order, if and only if every value is
   * non-empty, does not start with a comma, and, unless it is the last or a lone backslash, does not end
   * in a backslash.
   */
  lemma {:induction false} SplitUndoesJoin(es: seq<Entry>)
    requires forall e <- es :: CleanKey(e.key)
    ensures Split(Join(es)) == Some(Pairs(es)) <==> AllSplittable(es)
  {
    hide ScanPair, Tail, EscCommas;
    if es != [] {
      assert es[0] in es;
      TailEmpty(es[1..]);
      if Splittable(es[0], |es| == 1) {
        FirstEntryKept(es);
        SplitUndoesJoin(es[1..]);
        SameTail(Pair(es[0].key, Some(es[0].value)), Split(Join(es[1..])), Pairs(es[1..]));
      } else {
        FirstEntryLost(es);
      }
    }
  }

  lemma {:induction false} TailEmpty(es: seq<Entry>)
    ensures Tail(es) == "" <==> es == []
    ensures es != [] ==> Tail(es)[0] == ',' && Tail(es)[1..] == Join(es)
  {
  }

  lemma {:induction false} FirstEntryKept(es: seq<Entry>)
    requires es != [] && CleanKey(es[0].key) && Splittable(es[0], |es| == 1)
    ensures Split(Join(es)) == Prepend([Pair(es[0].key, Some(es[0].value))], Split(Join(es[1..])))
  {
    hide ScanPair, Tail, EscCommas;
    TailEmpty(es[1..]);
    EntrySplits(es[0], Tail(es[1..]));
  }

  lemma {:induction false} FirstEntryLost(es: seq<Entry>)
    requires es != [] && CleanKey(es[0].key) && !Splittable(es[0], |es| == 1)
    ensures Split(Join(es)) != Some(Pairs(es))
  {
    hide ScanPair, Split, Pairs, Tail, EscCommas;
    TailEmpty(es[1..]);
    EntryLost(es[0], Tail(es[1..]));
    SplitHead(Join(es));
    PairsHead(es);
  }

  lemma {:induction false} SplitHead(s: string)
    requires s != ""
    ensures match ScanPair(s, "", None)
            case Overrun => Split(s).None?
            case Scanned(p, rest) => Split(s).Some? ==> Split(s).value != [] && Split(s).value[0] == p
  {
    hide ScanPair;
  }

  lemma {:induction false} PairsHead(es: seq<Entry>)
    requires es != []
    ensures Pairs(es) != [] && Pairs(es)[0] == Pair(es[0].key, Some(es[0].value))
  {
  }

  lemma {:induction false} SameTail(p: Pair, r: Option<seq<Pair>>, ps: seq<Pair>)
    ensures Prepend([p], r) == Some([p] + ps) <==> r == Some(ps)
  {
    if r.Some? {
      assert ([p] + r.value)[1..] == r.value && ([p] + ps)[1..] == ps;
    }
  }
}
