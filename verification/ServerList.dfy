/** The variable list in the server: taken from its text and given as text again
    (src/lib/Libattr/attr_fn_arst.c:642-757, 777-849, 942-1009). Between the two it is a list of strings, which is also
    what the job gets. */
module ServerList {
  import opened CText
  import opened CommaEscape
  import QstatEnv

  /** Without the white space at the end. */
  function Strip(s: string): (r: string)
    ensures r <= s && (r == "" || !IsSpace(r[|r| - 1]))
    ensures s == "" || !IsSpace(s[|s| - 1]) ==> r == s
  {
    if s != "" && IsSpace(s[|s| - 1]) then Strip(s[..|s| - 1]) else s
  }

  /** The field at the front of s, behind the part already read, and what follows its comma. Backslashes that escape
      special characters are dropped. */
  function Field(s: string, out: string): (r: (string, string))
    ensures |r.1| <= |s| && (s != "" ==> |r.1| < |s|)
    decreases |s|
  {
    if s == "" then (out, "")
    else if s[0] == ESC then
      if |s| == 1 then (out, "") else Field(s[2..], out + if Special(s[1]) then [s[1]] else [ESC, s[1]])
    else if s[0] == ',' then (out, s[1..])
    else Field(s[1..], out + [s[0]])
  }

  /** The static pointer of parse_comma_string_bs: the text from there on. */
  class CommaParser {
    var pc: string

    constructor ()
      ensures pc == ""
    {
      pc := "";
    }

    /** parse_comma_string_bs */
    method Parse(start: Option<string>) returns (rv: Option<string>)
      modifies this
      ensures
        var u := SkipSpace(start.GetOr(old(pc)));
        if u == "" then rv == None && pc == "" else rv == Some(Strip(Field(u, "").0)) && pc == Field(u, "").1
    {
      if start.Some? {
        pc := start.value;
      }
      ghost var s := pc;
      while pc != "" && IsSpace(pc[0])
        invariant SkipSpace(pc) == SkipSpace(s)
        decreases |pc|
      {
        pc := pc[1..];
      }
      if pc == "" {
        return None;
      }
      ghost var u := pc;
      var dest := "";
      while pc != "" && pc[0] != ','
        invariant Field(u, "") == Field(pc, dest)
        decreases |pc|
      {
        if pc[0] == ESC {
          if |pc| == 1 {
            pc := "";
            break;
          } else if Special(pc[1]) {
            dest := dest + [pc[1]];
          } else {
            dest := dest + [ESC, pc[1]];
          }
          pc := pc[2..];
        } else {
          dest := dest + [pc[0]];
          pc := pc[1..];
        }
      }
      if pc != "" {
        pc := pc[1..];
      }
      ghost var whole := dest;
      while dest != "" && IsSpace(dest[|dest| - 1])
        invariant Strip(dest) == Strip(whole)
        decreases |dest|
      {
        dest := dest[..|dest| - 1];
      }
      return Some(dest);
    }
  }

  /** The commas that separate. */
  function Commas(s: string): nat {
    if s == "" then 0
    else if s[0] == ESC then (if |s| == 1 then 0 else Commas(s[2..]))
    else (if s[0] == ',' then 1 else 0) + Commas(s[1..])
  }

  predicate EndsIn(s: string, c: char) {
    s != "" && s[|s| - 1] == c
  }

  /** The number of fields, an empty one at the end not counted. */
  function Count(s: string): nat {
    if EndsIn(s, ',') then Commas(s) else Commas(s) + 1
  }

  /** The text without a comma at its end, even one that is escaped. */
  function Cut(s: string): string {
    if EndsIn(s, ',') then s[..|s| - 1] else s
  }

  /** count_substrings_bs, which cuts the text as well. */
  method CountSubstrings(val: string) returns (ns: nat, rest: string)
    requires val != ""
    ensures ns == Count(val) && rest == Cut(val)
  {
    ns := 1;
    var pc := 0;
    while pc < |val|
      invariant pc <= |val| && ns + Commas(val[pc..]) == Commas(val) + 1
    {
      CommasStep(val, pc);
      if val[pc] == ESC {
        if pc + 1 < |val| {
          pc := pc + 1;
        }
      } else if val[pc] == ',' {
        ns := ns + 1;
      }
      pc := pc + 1;
    }
    rest := val;
    pc := pc - 1;
    if val[pc] == ',' {
      ns := ns - 1;
      rest := val[..pc];
    }
  }

  lemma {:induction false} CommasStep(s: string, k: nat)
    requires k < |s|
    ensures s[k] == ESC && k + 1 < |s| ==> Commas(s[k..]) == Commas(s[k + 2..])
    ensures s[k] == ESC && k + 1 == |s| ==> Commas(s[k..]) == 0 && Commas(s[k + 1..]) == 0
    ensures s[k] != ESC ==> Commas(s[k..]) == (if s[k] == ',' then 1 else 0) + Commas(s[k + 1..])
  {
    assert s[k..][1..] == s[k + 1..];
    if k + 1 < |s| {
      assert s[k..][2..] == s[k + 2..];
    }
  }

  /** All fields of the text. */
  function Values(s: string): seq<string>
    decreases |s|
  {
    var u := SkipSpace(s);
    if u == "" then [] else [Strip(Field(u, "").0)] + Values(Field(u, "").1)
  }

  function FirstOf(ws: seq<string>, n: nat): seq<string> {
    if |ws| <= n then ws else ws[..n]
  }

  /** The strings that the server keeps. */
  function Decode(val: string): seq<string> {
    if val == "" then [] else FirstOf(Values(Cut(val)), Count(val))
  }

  /** decode_arst_bs, for an attribute without a value so far. */
  method DecodeArst(val: string) returns (strings: seq<string>)
    ensures strings == Decode(val)
  {
    strings := [];
    if val == "" {
      return;
    }
    var ns, sbuf := CountSubstrings(val);
    var parser := new CommaParser();
    var pstr := parser.Parse(Some(sbuf));
    ValuesStep(sbuf);
    hide Values, SkipSpace, Field, Strip, Cut, Count;
    while pstr.Some? && |strings| < ns
      invariant |strings| <= ns
      invariant Values(sbuf) == strings + if pstr.Some? then [pstr.value] + Values(parser.pc) else []
      decreases ns - |strings|
    {
      Together(strings, pstr.value, Values(parser.pc));
      ValuesStep(parser.pc);
      strings := strings + [pstr.value];
      pstr := parser.Parse(None);
    }
    FirstOfFront(strings, if pstr.Some? then [pstr.value] + Values(parser.pc) else [], ns);
  }

  lemma {:induction false} FirstOfFront(a: seq<string>, b: seq<string>, n: nat)
    requires |a| == n || (|a| < n && b == [])
    ensures FirstOf(a + b, n) == a
  {
    assert (a + b)[..|a|] == a;
    assert b == [] ==> a + b == a;
  }

  lemma {:induction false} ValuesStep(s: string)
    ensures
      var u := SkipSpace(s);
      Values(s) == if u == "" then [] else [Strip(Field(u, "").0)] + Values(Field(u, "").1)
  {
  }

  lemma {:induction false} Together<T>(a: seq<T>, x: T, b: seq<T>)
    ensures a + ([x] + b) == a + [x] + b
  {
  }

  /** A string with backslashes in front of the special characters. */
  function EscAll(w: string): string {
    if w == "" then "" else (if Special(w[0]) then [ESC, w[0]] else [w[0]]) + EscAll(w[1..])
  }

  function EncodeTail(ws: seq<string>): string {
    if ws == [] then "" else "," + EscAll(ws[0]) + EncodeTail(ws[1..])
  }

  /** The strings as text. */
  function Encode(ws: seq<string>): string {
    if ws == [] then "" else EscAll(ws[0]) + EncodeTail(ws[1..])
  }

  /** as_buf: the strings, each with its terminator. */
  function Buffer(ws: seq<string>): string {
    if ws == [] then "" else ws[0] + [NUL] + Buffer(ws[1..])
  }

  /** A buffer as text, its last terminator included. */
  function Written(buf: string): string {
    if buf == "" then ""
    else
      (if Special(buf[0]) then [ESC, buf[0]] else if buf[0] == NUL then "," else [buf[0]]) + Written(buf[1..])
  }

  /** encode_arst_bs; no text is made of no strings. */
  method EncodeArst(ghost ws: seq<string>, buf: string) returns (text: Option<string>)
    requires buf == Buffer(ws) && forall w <- ws :: NUL !in w
    ensures text == if ws == [] then None else Some(Encode(ws))
  {
    if buf == "" {
      assert ws != [] ==> |Buffer(ws)| > 0;
      return None;
    }
    WrittenBuffer(ws);
    hide Buffer, Encode, Special;
    var pc, pfrom := "", 0;
    assert buf[0..] == buf && pc + Written(buf) == Written(buf);
    hide Written;
    while pfrom < |buf|
      invariant pfrom <= |buf| && pc + Written(buf[pfrom..]) == Written(buf)
    {
      var c := buf[pfrom];
      WrittenStep(buf, pfrom);
      Assoc(pc, if Special(c) then [ESC, c] else if c == NUL then "," else [c], Written(buf[pfrom + 1..]));
      if Special(c) {
        pc := pc + [ESC, c];
      } else if c == NUL {
        pc := pc + ",";
      } else {
        pc := pc + [c];
      }
      pfrom := pfrom + 1;
    }
    WrittenNothing();
    assert buf[|buf|..] == "" && pc + "" == pc;
    text := Some(pc[..|pc| - 1]);
  }

  lemma {:induction false} WrittenString(w: string, b: string)
    requires NUL !in w
    ensures Written(w + [NUL] + b) == EscAll(w) + "," + Written(b)
  {
    var s := w + [NUL] + b;
    if w == "" {
      assert s[1..] == b;
      assert EscAll(w) + "," == ",";
    } else {
      assert s[1..] == w[1..] + [NUL] + b && w[0] in w;
      assert NUL !in w[1..];
      WrittenString(w[1..], b);
    }
  }

  lemma {:induction false} WrittenNothing()
    ensures Written("") == ""
  {
  }

  lemma {:induction false} WrittenStep(b: string, k: nat)
    requires k < |b|
    ensures Written(b[k..]) ==
            (if Special(b[k]) then [ESC, b[k]] else if b[k] == NUL then "," else [b[k]]) + Written(b[k + 1..])
  {
    assert b[k..][1..] == b[k + 1..];
  }

  lemma {:induction false} WrittenBuffer(ws: seq<string>)
    requires forall w <- ws :: NUL !in w
    ensures ws != [] ==> Written(Buffer(ws)) == Encode(ws) + ","
    ensures "," + Written(Buffer(ws)) == EncodeTail(ws) + ","
  {
    if ws != [] {
      var x, rest := EscAll(ws[0]), ws[1..];
      assert ws[0] in ws;
      WrittenString(ws[0], Buffer(rest));
      WrittenBuffer(rest);
      assert Encode(ws) == x + EncodeTail(rest) && EncodeTail(ws) == "," + x + EncodeTail(rest);
      hide Written, EscAll, Buffer, Encode, EncodeTail;
      Assoc(x, ",", Written(Buffer(rest)));
      Assoc(x, EncodeTail(rest), ",");
      Assoc(",", x, EncodeTail(rest));
      Assoc(",", x + EncodeTail(rest), ",");
    }
  }

  // ----- which entries the server keeps -----

  /** No backslash is followed by a special character or by the end. */
  predicate EscOk(v: string) {
    forall i :: 0 <= i < |v| && v[i] == ESC ==> i + 1 < |v| && !Special(v[i + 1])
  }

  /** The variable as the job should get it. */
  function Raw(e: Entry): string {
    e.key + "=" + e.value
  }

  function Raws(es: seq<Entry>): seq<string> {
    if es == [] then [] else [Raw(es[0])] + Raws(es[1..])
  }

  /** No white space at either end, and no backslash that the server takes for an escape. */
  predicate Storable(e: Entry) {
    && (e.key == "" || !IsSpace(e.key[0]))
    && EscOk(e.value) && (e.value == "" || !IsSpace(e.value[|e.value| - 1]))
  }

  /** All of them, and the list does not end in a comma. */
  predicate AllStorable(es: seq<Entry>) {
    (forall e <- es :: Storable(e)) && (es != [] ==> !EndsIn(es[|es| - 1].value, ','))
  }

  lemma {:induction false} KeyField(k: string, x: string, out: string)
    requires QstatEnv.CleanKey(k)
    ensures Field(k + "=" + x, out) == Field(x, out + k + "=")
  {
    var s := k + "=" + x;
    if k == "" {
      assert s[1..] == x && out + k == out;
    } else {
      assert s[1..] == k[1..] + "=" + x;
      KeyField(k[1..], x, out + [k[0]]);
      assert out + [k[0]] + k[1..] == out + k;
    }
  }

  /** Reading on never takes back what was read. */
  lemma {:induction false} Grows(s: string, out: string)
    ensures out <= Field(s, out).0
    decreases |s|
  {
    if s != "" && s[0] == ESC && |s| > 1 {
      Grows(s[2..], out + if Special(s[1]) then [s[1]] else [ESC, s[1]]);
    } else if s != "" && s[0] != ESC && s[0] != ',' {
      Grows(s[1..], out + [s[0]]);
    }
  }

  lemma {:induction false} PlainTurn(c: char, x: string, out: string)
    requires c != ESC && c != ','
    ensures Field([c] + x, out) == Field(x, out + [c])
  {
    assert ([c] + x)[1..] == x;
  }

  lemma {:induction false} EscapeTurn(c: char, x: string, out: string)
    ensures Field([ESC, c] + x, out) == Field(x, out + if Special(c) then [c] else [ESC, c])
  {
    assert ([ESC, c] + x)[2..] == x;
  }

  lemma {:induction false} OnWire(v: string, t: string)
    requires v != ""
    ensures v[0] == ',' ==> EscCommas(v) + t == [ESC, ','] + (EscCommas(v[1..]) + t)
    ensures v[0] != ',' ==> EscCommas(v) + t == [v[0]] + (EscCommas(v[1..]) + t)
  {
  }

  lemma {:induction false} TwoOnWire(v: string, t: string)
    requires |v| > 1 && v[0] == ESC
    ensures v[1] == ',' ==> EscCommas(v) + t == [ESC, ESC] + ([','] + (EscCommas(v[2..]) + t))
    ensures v[1] != ',' ==> EscCommas(v) + t == [ESC, v[1]] + (EscCommas(v[2..]) + t)
  {
    OnWire(v, t);
    OnWire(v[1..], t);
    assert v[1..][1..] == v[2..];
    hide EscCommas;
    Assoc([ESC], [v[1]], EscCommas(v[2..]) + t);
  }

  /** The first one or two characters of a value. */
  lemma {:induction false} ValueTurn(v: string, t: string, out: string)
    requires v != "" && (v[0] == ESC ==> |v| > 1 && v[1] != ',')
    ensures v[0] != ESC ==> Field(EscCommas(v) + t, out) == Field(EscCommas(v[1..]) + t, out + [v[0]])
    ensures v[0] == ESC ==>
              Field(EscCommas(v) + t, out) ==
              Field(EscCommas(v[2..]) + t, out + if Special(v[1]) then [v[1]] else [ESC, v[1]])
  {
    OnWire(v, t);
    var x := EscCommas(v[1..]) + t;
    hide EscCommas, Field;
    if v[0] == ESC {
      TwoOnWire(v, t);
      EscapeTurn(v[1], EscCommas(v[2..]) + t, out);
    } else if v[0] == ',' {
      EscapeTurn(',', x, out);
    } else {
      PlainTurn(v[0], x, out);
    }
  }

  lemma {:induction false} EscOkOn(v: string)
    requires EscOk(v) && v != ""
    ensures v[0] == ESC ==> |v| > 1 && EscOk(v[2..])
    ensures v[0] != ESC ==> EscOk(v[1..])
  {
    var n := if v[0] == ESC then 2 else 1;
    assert forall i :: n <= i < |v| ==> v[i] == v[n..][i - n];
  }

  lemma {:induction false} ValueField(v: string, t: string, out: string)
    requires EscOk(v) && AtEnd(t)
    ensures Field(EscCommas(v) + t, out) == (out + v, if t == "" then "" else t[1..])
    decreases |v|
  {
    if v == "" {
      assert EscCommas(v) + t == t && out + v == out;
    } else {
      EscOkOn(v);
      assert v[0] == ESC ==> |v| > 1 && !Special(v[1]);
      hide Field, EscCommas, EscOk;
      ValueTurn(v, t, out);
      var n := if v[0] == ESC then 2 else 1;
      ValueField(v[n..], t, out + v[..n]);
      assert v[..n] == if n == 2 then [ESC, v[1]] else [v[0]];
      Assoc(out, v[..n], v[n..]);
      assert v[..n] + v[n..] == v;
    }
  }

  function Backslashes(k: nat): (s: string)
    ensures |s| == k
  {
    if k == 0 then "" else [ESC] + Backslashes(k - 1)
  }

  lemma {:induction false} OneMore(k: nat)
    ensures Backslashes(k) + [ESC] == Backslashes(k + 1)
  {
    if k > 0 {
      OneMore(k - 1);
    } else {
      assert Backslashes(0) + [ESC] == [ESC] + Backslashes(0);
    }
  }

  /** A backslash in front of a comma of the value takes the escape of the comma. */
  lemma {:induction false} CutAtComma(v: string, t: string, out: string)
    requires |v| > 1 && v[0] == ESC && v[1] == ','
    ensures Field(EscCommas(v) + t, out).0 == out + [ESC]
  {
    var x := [','] + (EscCommas(v[2..]) + t);
    TwoOnWire(v, t);
    EscapeTurn(ESC, x, out);
    assert x[0] == ',' && Field(x, out + [ESC]).0 == out + [ESC];
  }

  /** A backslash at the end takes the comma behind the value, or is dropped. */
  lemma {:induction false} LastBackslash(t: string, out: string)
    requires AtEnd(t)
    ensures if t == "" then Field(EscCommas([ESC]) + t, out).0 == out
            else out + [','] <= Field(EscCommas([ESC]) + t, out).0
  {
    assert EscCommas([ESC]) == [ESC];
    if t != "" {
      assert [ESC] + t == [ESC, ','] + t[1..];
      EscapeTurn(',', t[1..], out);
      Grows(t[1..], out + [',']);
    } else {
      assert [ESC] + t == [ESC];
    }
  }

  lemma {:induction false} Differs(out: string, c: char, d: char, x: string, r: string)
    requires c != d && out + [c] <= r
    ensures !(out + ([d] + x) <= r)
  {
    assert r[|out|] == (out + [c])[|out|];
    assert (out + ([d] + x))[|out|] == d;
  }

  /** What is read is not the value with backslashes in front of it. */
  lemma {:induction false} NoGain(u: string, t: string, out: string, k: nat)
    requires k > 0 && AtEnd(t)
    ensures !(out + (Backslashes(k) + u) <= Field(EscCommas(u) + t, out).0)
    decreases |u|
  {
    var r := Field(EscCommas(u) + t, out).0;
    var x := Backslashes(k - 1) + u;
    assert Backslashes(k) + u == [ESC] + x;
    hide EscCommas, Field, Backslashes;
    if u == "" {
      NothingRead(t, out);
    } else if u[0] != ESC {
      ValueTurn(u, t, out);
      Grows(EscCommas(u[1..]) + t, out + [u[0]]);
      Differs(out, u[0], ESC, x, r);
    } else if |u| == 1 {
      LastBackslash(t, out);
      if t != "" {
        Differs(out, ',', ESC, x, r);
      }
    } else if u[1] == ',' {
      CutAtComma(u, t, out);
    } else {
      ValueTurn(u, t, out);
      NoGainPair(u, t, out, k);
    }
  }

  lemma {:induction false} NothingRead(t: string, out: string)
    requires AtEnd(t)
    ensures Field(EscCommas("") + t, out).0 == out
  {
    assert EscCommas("") + t == t;
  }

  lemma {:induction false} BackslashesOn(out: string, u: string, k: nat)
    requires |u| > 1 && u[0] == ESC && u[1] == ESC
    ensures out + (Backslashes(k) + u) == out + [ESC] + (Backslashes(k + 1) + u[2..])
  {
    Commute(k);
    hide Backslashes;
    assert u == [ESC] + ([ESC] + u[2..]);
    assert Backslashes(k) + u == Backslashes(k) + [ESC] + [ESC] + u[2..];
    Assoc([ESC], Backslashes(k + 1), u[2..]);
    Assoc(out, [ESC], Backslashes(k + 1) + u[2..]);
  }

  lemma {:induction false} NoGainPair(u: string, t: string, out: string, k: nat)
    requires k > 0 && AtEnd(t) && |u| > 1 && u[0] == ESC && u[1] != ','
    ensures !(out + (Backslashes(k) + u) <=
              Field(EscCommas(u[2..]) + t, out + if Special(u[1]) then [u[1]] else [ESC, u[1]]).0)
    decreases |u|, 0
  {
    var y := EscCommas(u[2..]) + t;
    var add := if Special(u[1]) then [u[1]] else [ESC, u[1]];
    var r := Field(y, out + add).0;
    hide Field, EscCommas;
    if u[1] == ESC {
      NoGain(u[2..], t, out + [ESC], k + 1);
      BackslashesOn(out, u, k);
    } else {
      Grows(y, out + add);
      var x := Backslashes(k - 1) + u;
      assert Backslashes(k) + u == [ESC] + x;
      if Special(u[1]) {
        Differs(out, u[1], ESC, x, r);
      } else {
        SecondOf(k, u);
        hide Backslashes;
        assert out + add == out + [ESC] + [u[1]];
        Differs(out + [ESC], u[1], ESC, x[1..], r);
        Assoc(out, [ESC], x);
      }
    }
  }

  lemma {:induction false} SecondOf(k: nat, u: string)
    requires k > 0 && u != "" && u[0] == ESC
    ensures var x := Backslashes(k - 1) + u; x == [ESC] + x[1..]
  {
  }

  lemma {:induction false} Commute(k: nat)
    ensures Backslashes(k) + [ESC] + [ESC] == [ESC] + Backslashes(k + 1)
  {
    OneMore(k);
    OneMore(k + 1);
    assert Backslashes(k + 2) == [ESC] + Backslashes(k + 1);
  }

  /** A value with such a backslash is not what is read. */
  lemma {:induction false} BadValue(v: string, t: string, out: string)
    requires !EscOk(v) && AtEnd(t)
    ensures !(out + v <= Field(EscCommas(v) + t, out).0)
    decreases |v|
  {
    var r := Field(EscCommas(v) + t, out).0;
    var x := v[1..];
    assert v == [v[0]] + x;
    if v[0] != ESC {
      assert !EscOk(x) by {
        assert forall i :: 0 <= i < |x| ==> x[i] == v[i + 1];
      }
      hide EscCommas, Field, EscOk;
      ValueTurn(v, t, out);
      BadValue(x, t, out + [v[0]]);
      assert out + [v[0]] + x == out + v;
    } else if |v| == 1 {
      LastBackslash(t, out);
      hide EscCommas, Field;
      if t != "" {
        Differs(out, ',', ESC, x, r);
      }
    } else if v[1] == ',' {
      CutAtComma(v, t, out);
    } else {
      BadPair(v, t, out);
    }
  }

  lemma {:induction false} BadRest(v: string)
    requires !EscOk(v) && |v| > 1 && v[0] == ESC && !Special(v[1])
    ensures !EscOk(v[2..])
  {
    var y := v[2..];
    assert forall i :: 0 <= i < |y| ==> y[i] == v[i + 2];
  }

  lemma {:induction false} BadPair(v: string, t: string, out: string)
    requires !EscOk(v) && AtEnd(t) && |v| > 1 && v[0] == ESC && v[1] != ','
    ensures !(out + v <= Field(EscCommas(v) + t, out).0)
    decreases |v|, 0
  {
    var y := v[2..];
    hide Field, EscCommas;
    ValueTurn(v, t, out);
    if v[1] == ESC {
      assert v == [ESC] + (Backslashes(1) + y);
      NoGain(y, t, out + [ESC], 1);
      Assoc(out, [ESC], Backslashes(1) + y);
    } else if Special(v[1]) {
      assert v == [ESC] + v[1..];
      Grows(EscCommas(y) + t, out + [v[1]]);
      Differs(out, v[1], ESC, v[1..], Field(EscCommas(v) + t, out).0);
    } else {
      assert v == [ESC, v[1]] + y;
      BadRest(v);
      hide EscOk;
      BadValue(y, t, out + [ESC, v[1]]);
      Assoc(out, [ESC, v[1]], y);
    }
  }

  /** A value without its last comma, whose backslash stays, is read as something shorter. */
  lemma {:induction false} CutShort(u: string, out: string)
    ensures |Field(EscCommas(u) + [ESC], out).0| <= |out| + |u|
    decreases |u|
  {
    if u == "" {
      assert EscCommas(u) + [ESC] == [ESC];
    } else if u == [ESC] {
      assert EscCommas(u) + [ESC] == [ESC, ESC] + "";
      EscapeTurn(ESC, "", out);
    } else if u[0] == ESC && u[1] == ',' {
      CutAtComma(u, [ESC], out);
    } else {
      ValueTurn(u, [ESC], out);
      if u[0] == ESC {
        CutShort(u[2..], out + if Special(u[1]) then [u[1]] else [ESC, u[1]]);
      } else {
        CutShort(u[1..], out + [u[0]]);
      }
    }
  }

  /** The first string that the server makes of a text that starts with the entry. */
  lemma {:induction false} FirstValue(e: Entry, t: string)
    requires QstatEnv.CleanKey(e.key) && (e.key == "" || !IsSpace(e.key[0]))
    ensures
      var r := Field(EscCommas(e.value) + t, e.key + "=");
      Values(e.Text() + t) == [Strip(r.0)] + Values(r.1)
  {
    var s := e.Text() + t;
    assert s == e.key + "=" + (EscCommas(e.value) + t);
    assert s[0] == (e.key + "=")[0];
    KeyField(e.key, EscCommas(e.value) + t, "");
    assert "" + e.key == e.key;
    hide Field, EscCommas;
  }

  lemma {:induction false} StoredFirst(e: Entry, t: string)
    requires QstatEnv.CleanKey(e.key) && Storable(e) && AtEnd(t)
    ensures Values(e.Text() + t) == [Raw(e)] + Values(if t == "" then "" else t[1..])
  {
    hide Field, EscCommas, EscOk, Strip, Values;
    FirstValue(e, t);
    ValueField(e.value, t, e.key + "=");
    assert Raw(e)[|Raw(e)| - 1] == if e.value == "" then '=' else e.value[|e.value| - 1];
  }

  lemma {:induction false} NotStoredFirst(e: Entry, t: string)
    requires QstatEnv.CleanKey(e.key) && !Storable(e) && AtEnd(t)
    ensures var vs := Values(e.Text() + t); vs == [] || vs[0] != Raw(e)
  {
    if e.key != "" && IsSpace(e.key[0]) {
      NoSpaceInFront(e.Text() + t);
      assert Raw(e)[0] == e.key[0];
    } else {
      FirstValue(e, t);
      var r := Field(EscCommas(e.value) + t, e.key + "=").0;
      hide Field, EscCommas, Values;
      if EscOk(e.value) {
        ValueField(e.value, t, e.key + "=");
        assert Raw(e)[|Raw(e)| - 1] == e.value[|e.value| - 1];
      } else {
        BadValue(e.value, t, e.key + "=");
        assert e.key + "=" + e.value == Raw(e);
      }
    }
  }

  lemma {:induction false} NoSpaceInFront(s: string)
    ensures var vs := Values(s); vs == [] || vs[0] == "" || !IsSpace(vs[0][0])
  {
    var u := SkipSpace(s);
    if u != "" {
      var c := u[0];
      if c == ESC && |u| > 1 {
        Grows(u[2..], "" + if Special(u[1]) then [u[1]] else [ESC, u[1]]);
      } else if c != ESC && c != ',' {
        Grows(u[1..], "" + [c]);
      }
    }
  }

  // ----- whole lists -----

  lemma {:induction false} EscCommasEnds(v: string)
    ensures v != "" ==> EscCommas(v) != "" && EscCommas(v)[|EscCommas(v)| - 1] == v[|v| - 1]
    ensures EscCommas(v) == "" <==> v == ""
  {
    if |v| > 1 {
      EscCommasEnds(v[1..]);
    }
  }

  lemma {:induction false} TextEnds(e: Entry)
    ensures e.Text() != "" && (EndsIn(e.Text(), ',') <==> EndsIn(e.value, ','))
  {
    EscCommasEnds(e.value);
    hide EscCommas;
  }

  /** The list without its first entry. */
  lemma {:induction false} JoinSplits(es: seq<Entry>)
    requires |es| > 1
    ensures Join(es) == es[0].Text() + ("," + Join(es[1..])) && Join(es[1..]) != ""
    ensures EndsIn(Join(es), ',') <==> EndsIn(Join(es[1..]), ',')
    ensures Cut(Join(es)) == es[0].Text() + ("," + Cut(Join(es[1..])))
  {
    var rest := es[1..];
    QstatEnv.TailEmpty(rest);
    TextEnds(rest[0]);
    assert Join(rest) == rest[0].Text() + Tail(rest[1..]);
    hide Tail, EscCommas;
    assert Tail(rest) == "," + Join(rest);
  }

  lemma {:induction false} JoinEnds(es: seq<Entry>)
    requires es != []
    ensures Join(es) != "" && (EndsIn(Join(es), ',') <==> EndsIn(es[|es| - 1].value, ','))
  {
    if |es| == 1 {
      TextEnds(es[0]);
      assert Join(es) == es[0].Text() + "";
    } else {
      JoinSplits(es);
      JoinEnds(es[1..]);
    }
  }

  lemma {:induction false} CommasPlain(x: string, t: string)
    requires forall i :: 0 <= i < |x| ==> x[i] != ',' && x[i] != ESC
    ensures Commas(x + t) == Commas(t)
  {
    if x == "" {
      assert x + t == t;
    } else {
      assert (x + t)[1..] == x[1..] + t;
      CommasPlain(x[1..], t);
    }
  }

  lemma {:induction false} CommasValue(v: string, t: string)
    requires EscOk(v)
    ensures Commas(EscCommas(v) + t) == Commas(t)
    decreases |v|
  {
    if v == "" {
      assert EscCommas(v) + t == t;
    } else if v[0] == ESC {
      TwoOnWire(v, t);
      var x := EscCommas(v[2..]) + t;
      assert ([ESC, v[1]] + x)[2..] == x;
      EscOkOn(v);
      CommasValue(v[2..], t);
    } else {
      OnWire(v, t);
      var x := EscCommas(v[1..]) + t;
      assert ([ESC, ','] + x)[2..] == x && ([v[0]] + x)[1..] == x;
      EscOkOn(v);
      CommasValue(v[1..], t);
    }
  }

  lemma {:induction false} CommasEntry(e: Entry, t: string)
    requires QstatEnv.CleanKey(e.key) && EscOk(e.value)
    ensures Commas(e.Text() + t) == Commas(t)
  {
    hide Commas, EscCommas, EscOk;
    CommasPlain(e.key + "=", EscCommas(e.value) + t);
    CommasValue(e.value, t);
    assert e.Text() + t == e.key + "=" + (EscCommas(e.value) + t);
  }

  /** Behind a storable entry the list goes on as if it began there. */
  lemma {:induction false} DecodeOn(es: seq<Entry>)
    requires |es| > 1 && QstatEnv.CleanKey(es[0].key) && Storable(es[0])
    ensures Decode(Join(es)) == [Raw(es[0])] + Decode(Join(es[1..]))
  {
    var e, j := es[0], Join(es[1..]);
    JoinSplits(es);
    StoredFirst(e, "," + Cut(j));
    assert ("," + Cut(j))[1..] == Cut(j);
    CommasEntry(e, "," + j);
    assert ("," + j)[1..] == j;
    assert Commas("," + j) == 1 + Commas(j);
    hide Commas, Values, Join, Cut, EndsIn, EscCommas;
    FirstOfMore(Raw(e), Values(Cut(j)), Count(j));
  }

  lemma {:induction false} FirstOfMore(w: string, ws: seq<string>, n: nat)
    ensures FirstOf([w] + ws, n + 1) == [w] + FirstOf(ws, n)
  {
  }

  lemma {:induction false} OneEntry(e: Entry)
    requires QstatEnv.CleanKey(e.key)
    ensures Storable(e) && EndsIn(e.value, ',') ==> Decode(Join([e])) == []
    ensures Decode(Join([e])) == [Raw(e)] <==> Storable(e) && !EndsIn(e.value, ',')
  {
    var t := e.Text();
    assert Join([e]) == t + "" == t by {
      assert [e][1..] == [];
    }
    TextEnds(e);
    if Storable(e) {
      CommasEntry(e, "");
      StoredFirst(e, "");
    }
    if EndsIn(e.value, ',') {
      LastCommaCut(e);
    } else if !Storable(e) {
      NotStoredFirst(e, "");
    }
    hide Values, EscCommas, EscOk;
    assert t + "" == t;
  }

  lemma {:induction false} LastCommaOff(e: Entry)
    requires EndsIn(e.value, ',')
    ensures Cut(e.Text()) == Entry(e.key, e.value[..|e.value| - 1]).Text() + [ESC]
  {
    var v := e.value[..|e.value| - 1];
    EscCommasSnoc(v);
    hide EscCommas;
    assert v + [','] == e.value;
    assert e.Text() == e.key + "=" + EscCommas(v) + [ESC] + [','];
  }

  /** An entry that ends in a comma is not kept when it is the last. */
  lemma {:induction false} LastCommaCut(e: Entry)
    requires QstatEnv.CleanKey(e.key) && EndsIn(e.value, ',')
    ensures var vs := Values(Cut(e.Text())); vs == [] || vs[0] != Raw(e)
  {
    var v := e.value[..|e.value| - 1];
    LastCommaOff(e);
    hide Field, EscCommas, Cut, Values;
    if e.key != "" && IsSpace(e.key[0]) {
      NoSpaceInFront(Cut(e.Text()));
      assert Raw(e)[0] == e.key[0];
    } else {
      FirstValue(Entry(e.key, v), [ESC]);
      CutShort(v, e.key + "=");
      hide Strip;
      assert |Raw(e)| == |e.key + "="| + |v| + 1;
    }
  }

  lemma {:induction false} EscCommasSnoc(v: string)
    ensures EscCommas(v + [',']) == EscCommas(v) + [ESC] + [',']
  {
    if v == "" {
      assert v + [','] == [','] && [','][1..] == "";
    } else {
      assert (v + [','])[1..] == v[1..] + [','];
      EscCommasSnoc(v[1..]);
    }
  }

  lemma {:induction false} RawsAre(es: seq<Entry>)
    ensures |Raws(es)| == |es|
    ensures es != [] ==> Raws(es) == [Raw(es[0])] + Raws(es[1..]) && Raws(es)[0] == Raw(es[0])
  {
    if es != [] {
      RawsAre(es[1..]);
    }
  }

  lemma {:induction false} AllStorableStep(es: seq<Entry>)
    requires |es| > 1
    ensures AllStorable(es) <==> Storable(es[0]) && AllStorable(es[1..])
  {
    var rest := es[1..];
    hide Storable;
    assert forall e :: e in es <==> e == es[0] || e in rest;
    assert rest[|rest| - 1] == es[|es| - 1];
  }

  /**
   * The server keeps exactly the variables of the list, in order, and the job gets them, if and only if no name or
   * value begins or ends in white space, no backslash of a value is followed by a quote, a comma, a backslash or the
   * end, and the list does not end in a comma.
   */
  lemma {:induction false} ServerKeepsTheList(es: seq<Entry>)
    requires es != [] && forall e <- es :: QstatEnv.CleanKey(e.key)
    ensures Decode(Join(es)) == Raws(es) <==> AllStorable(es)
  {
    var e := es[0];
    assert e in es && forall d <- es[1..] :: d in es;
    RawsAre(es);
    if |es| == 1 {
      assert es == [e] && Raws(es[1..]) == [];
      OneEntry(e);
      assert forall d :: d in [e] <==> d == e;
      hide Storable, Decode, Join;
    } else {
      AllStorableStep(es);
      hide Raws, Decode, Join, AllStorable;
      if Storable(e) {
        hide Storable;
        DecodeOn(es);
        ServerKeepsTheList(es[1..]);
        SameFront(Raw(e), Decode(Join(es[1..])), Raws(es[1..]));
      } else {
        FirstNotKept(es);
      }
    }
  }

  lemma {:induction false} FirstNotKept(es: seq<Entry>)
    requires |es| > 1 && QstatEnv.CleanKey(es[0].key) && !Storable(es[0])
    ensures var vs := Decode(Join(es)); vs == [] || vs[0] != Raw(es[0])
  {
    JoinSplits(es);
    NotStoredFirst(es[0], "," + Cut(Join(es[1..])));
    hide Join, Values, Cut, Count, Storable;
  }

  lemma {:induction false} SameFront(w: string, a: seq<string>, b: seq<string>)
    ensures [w] + a == [w] + b <==> a == b
  {
    assert ([w] + a)[1..] == a && ([w] + b)[1..] == b;
  }

  /** An otherwise fine list that ends in a comma loses its last variable altogether. */
  lemma {:induction false} EndingCommaLosesVariable(es: seq<Entry>)
    requires es != [] && (forall e <- es :: QstatEnv.CleanKey(e.key) && Storable(e))
    requires EndsIn(es[|es| - 1].value, ',')
    ensures Decode(Join(es)) == Raws(es[..|es| - 1])
  {
    var e := es[0];
    assert e in es;
    if |es| == 1 {
      assert es == [e] && es[..0] == [];
      OneEntry(e);
    } else {
      var rest, front := es[1..], es[..|es| - 1];
      assert forall d <- rest :: d in es;
      assert rest[|rest| - 1] == es[|es| - 1];
      hide *;
      DecodeOn(es);
      EndingCommaLosesVariable(rest);
      RawsAre(front);
      assert front[1..] == rest[..|rest| - 1];
    }
  }

  // ----- what qstat makes of the server's text -----

  /** A name without special characters and '='. */
  predicate PlainKey(k: string) {
    Clean(k) && forall i :: 0 <= i < |k| ==> k[i] != '='
  }

  /** What qstat can show of the server's text: it drops no backslash but those in front of commas. */
  predicate Showable(e: Entry) {
    e.value != "" && e.value[0] != ',' && PlainValue(e.value)
  }

  lemma {:induction false} EscAllPlain(x: string, y: string)
    requires Clean(x)
    ensures EscAll(x + y) == x + EscAll(y)
  {
    if x == "" {
      assert x + y == y;
    } else {
      assert (x + y)[1..] == x[1..] + y;
      EscAllPlain(x[1..], y);
    }
  }

  lemma {:induction false} EscAllRaw(e: Entry)
    requires PlainKey(e.key)
    ensures EscAll(Raw(e)) == e.key + "=" + EscAll(e.value)
  {
    EscAllPlain(e.key + "=", e.value);
  }

  lemma {:induction false} EscAllCommas(v: string)
    requires PlainValue(v)
    ensures EscAll(v) == EscCommas(v)
  {
    if v != "" {
      EscAllCommas(v[1..]);
    }
  }

  /** A character with its backslash, once the value has begun. */
  lemma {:induction false} MarkScan(c: char, x: string, key: string, acc: string)
    requires IsQuote(c) || c == ESC
    ensures
      QstatEnv.ScanPair([ESC, c] + x, key, Some(acc)) ==
      if c == ESC && At(x, 0) == ',' then QstatEnv.ScanPair(x[1..], key, Some(acc + [ESC] + [',']))
      else QstatEnv.ScanPair(x, key, Some(acc + [ESC] + [c]))
  {
    assert [ESC, c] + x == [ESC] + ([c] + x);
    QstatEnv.PlainTurn(ESC, [c] + x, key, acc);
    if c == ESC && At(x, 0) == ',' {
      assert [c] + x == [ESC, ','] + x[1..];
      QstatEnv.EscapedTurn(x[1..], key, acc + [ESC]);
    } else {
      QstatEnv.PlainTurn(c, x, key, acc + [ESC]);
    }
  }

  /** A value never gets shorter, and longer when it holds a quote or a backslash. */
  lemma {:induction false} ScanLonger(w: string, t: string, key: string, acc: string)
    requires AtEnd(t)
    ensures
      var r := QstatEnv.ScanPair(EscAll(w) + t, key, Some(acc));
      r.Scanned? && r.pair.val.Some? && |r.pair.val.value| >= |acc| + |w| + if PlainValue(w) then 0 else 1
  {
    if w == "" {
      assert EscAll(w) + t == t;
      QstatEnv.Collects(t, key, acc);
    } else {
      var c, x := w[0], EscAll(w[1..]) + t;
      EscAllFront(w, t);
      PlainStep(w);
      hide QstatEnv.ScanPair;
      if c == ',' {
        QstatEnv.EscapedTurn(x, key, acc);
        ScanLonger(w[1..], t, key, acc + [',']);
      } else if !Special(c) {
        QstatEnv.PlainTurn(c, x, key, acc);
        ScanLonger(w[1..], t, key, acc + [c]);
      } else {
        MarkScan(c, x, key, acc);
        if c == ESC && At(x, 0) == ',' {
          CommaInFront(w[1..], t);
          QstatEnv.Collects(x[1..], key, acc + [ESC] + [',']);
        } else {
          ScanLonger(w[1..], t, key, acc + [ESC] + [c]);
        }
      }
    }
  }

  lemma {:induction false} PlainStep(w: string)
    requires w != ""
    ensures PlainValue(w) <==> !IsQuote(w[0]) && w[0] != ESC && PlainValue(w[1..])
  {
    assert forall i :: 1 <= i < |w| ==> w[i] == w[1..][i - 1];
    assert forall i :: 0 <= i < |w| - 1 ==> w[1..][i] == w[i + 1];
  }

  /** A comma without backslash comes only behind the value. */
  lemma {:induction false} CommaInFront(w: string, t: string)
    requires At(EscAll(w) + t, 0) == ','
    ensures w == ""
  {
  }

  lemma {:induction false} ShownFirst(e: Entry, t: string)
    requires PlainKey(e.key) && Showable(e) && AtEnd(t)
    ensures QstatEnv.ScanPair(EscAll(Raw(e)) + t, "", None) ==
            QstatEnv.Scanned(QstatEnv.Pair(e.key, Some(e.value)), t)
  {
    hide QstatEnv.ScanPair;
    EscAllRaw(e);
    EscAllCommas(e.value);
    QstatEnv.EntrySplits(e, t);
  }

  lemma {:induction false} NotShownFirst(e: Entry, t: string)
    requires PlainKey(e.key) && !Showable(e) && AtEnd(t)
    ensures
      var r := QstatEnv.ScanPair(EscAll(Raw(e)) + t, "", None);
      r.Scanned? ==> r.pair != QstatEnv.Pair(e.key, Some(e.value))
  {
    hide QstatEnv.ScanPair;
    var v := e.value;
    var x := EscAll(v) + t;
    EscAllRaw(e);
    assert EscAll(Raw(e)) + t == e.key + "=" + x;
    QstatEnv.KeyScan(e.key, x, "");
    assert "" + e.key == e.key;
    if v == "" {
      if t != "" {
        QstatEnv.Collects(x[1..], e.key, [x[0]]);
      }
    } else if v[0] == ',' {
      QstatEnv.Collects(x[1..], e.key, [x[0]]);
    } else {
      PlainStep(v);
      FirstOfValue(v, t, e.key);
    }
  }

  lemma {:induction false} EscAllFront(v: string, t: string)
    requires v != ""
    ensures EscAll(v) + t == (if Special(v[0]) then [ESC, v[0]] else [v[0]]) + (EscAll(v[1..]) + t)
  {
  }

  lemma {:induction false} FirstOfValue(v: string, t: string, key: string)
    requires v != "" && v[0] != ',' && !PlainValue(v) && AtEnd(t)
    ensures
      var x := EscAll(v) + t;
      var r := QstatEnv.ScanPair(x[1..], key, Some([x[0]]));
      r.Scanned? && r.pair.val.Some? && |r.pair.val.value| > |v|
  {
    var c, y := v[0], EscAll(v[1..]) + t;
    var x := EscAll(v) + t;
    PlainStep(v);
    EscAllFront(v, t);
    hide QstatEnv.ScanPair, EscAll, PlainValue;
    if Special(c) {
      assert x[0] == ESC && x[1..] == [c] + y;
      if c == ESC && At(y, 0) == ',' {
        CommaInFront(v[1..], t);
        assert [c] + y == [ESC, ','] + y[1..];
        QstatEnv.EscapedTurn(y[1..], key, [ESC]);
        QstatEnv.Collects(y[1..], key, [ESC] + [',']);
      } else {
        QstatEnv.PlainTurn(c, y, key, [ESC]);
        ScanLonger(v[1..], t, key, [ESC] + [c]);
      }
    } else {
      assert x[0] == c && x[1..] == y;
      ScanLonger(v[1..], t, key, [c]);
    }
  }

  lemma {:induction false} EncodeFirst(es: seq<Entry>)
    requires es != []
    ensures
      var t := EncodeTail(Raws(es[1..]));
      && Encode(Raws(es)) == EscAll(Raw(es[0])) + t && AtEnd(t) && (t == "" <==> |es| == 1)
      && (t != "" ==> t[1..] == Encode(Raws(es[1..])))
  {
    var rest := es[1..];
    RawsAre(es);
    RawsAre(rest);
    hide Raws, EscAll, Raw;
    assert Raws(es)[1..] == Raws(rest);
    if rest != [] {
      var x, y := EscAll(Raws(rest)[0]), EncodeTail(Raws(rest)[1..]);
      assert EncodeTail(Raws(rest)) == "," + x + y && ("," + x + y)[1..] == x + y;
    }
  }

  /**
   * When the server keeps a list of variables, qstat shows exactly these, in order, if and only if every value is not
   * empty, does not start with a comma and is free of quotes and backslashes.
   */
  lemma {:induction false} QstatShowsTheServersList(es: seq<Entry>)
    requires forall e <- es :: PlainKey(e.key)
    ensures QstatEnv.Split(Encode(Raws(es))) == Some(QstatEnv.Pairs(es)) <==> forall e <- es :: Showable(e)
  {
    if es != [] {
      var e, rest := es[0], es[1..];
      assert e in es && forall d :: d in es <==> d == e || d in rest;
      var t := EncodeTail(Raws(rest));
      EncodeFirst(es);
      if Showable(e) {
        ShownFirst(e, t);
        QstatShowsTheServersList(rest);
        SplitOn(es, t);
        QstatEnv.SameTail(QstatEnv.Pair(e.key, Some(e.value)), QstatEnv.Split(Encode(Raws(rest))),
                          QstatEnv.Pairs(rest));
        hide QstatEnv.Split, QstatEnv.ScanPair, Showable, Raws, Encode;
      } else {
        NotShownFirst(e, t);
        QstatEnv.SplitHead(Encode(Raws(es)));
        QstatEnv.PairsHead(es);
        hide QstatEnv.Split, QstatEnv.ScanPair, QstatEnv.Pairs, Raws, Encode;
      }
    }
  }

  lemma {:induction false} SplitOn(es: seq<Entry>, t: string)
    requires es != [] && t == EncodeTail(Raws(es[1..]))
    requires var p := QstatEnv.Pair(es[0].key, Some(es[0].value));
             QstatEnv.ScanPair(EscAll(Raw(es[0])) + t, "", None) == QstatEnv.Scanned(p, t)
    ensures QstatEnv.Split(Encode(Raws(es))) ==
            QstatEnv.Prepend([QstatEnv.Pair(es[0].key, Some(es[0].value))], QstatEnv.Split(Encode(Raws(es[1..]))))
  {
    EncodeFirst(es);
    hide QstatEnv.ScanPair, EscAll, EncodeTail;
  }
}
