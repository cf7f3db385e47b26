/**
 * Environment lists as text (src/cmds/qsub.c): splitting at commas, escaping values,
 * and the list built from the whole environment for -V.
 */
module EnvText {
  import opened CText

  // ----- comma_token -----

  /** Where the token at the front of s ends: its first comma outside quotes that is not escaped. */
  function TokenEnd(s: string, quote: char): (k: nat)
    ensures k <= |s|
    ensures k < |s| ==> s[k] == ','
  {
    if s == "" then 0
    else if IsQuote(s[0]) then 1 + TokenEnd(s[1..], if s[0] == quote then NUL else s[0])
    else if s[0] == ',' && quote == NUL then 0
    else if s[0] == ESC && |s| > 1 then 2 + TokenEnd(s[2..], quote)
    else 1 + TokenEnd(s[1..], quote)
  }

  /** All the tokens of s. A comma that ends the text is not followed by an empty token. */
  function Tokens(s: string): seq<string> {
    if s == "" then []
    else
      var k := TokenEnd(s, NUL);
      [s[..k]] + if k == |s| then [] else Tokens(s[k + 1..])
  }

  /** The loop of comma_token: how far the token at the front of s reaches. */
  method ScanToken(s: string) returns (k: nat)
    ensures k == TokenEnd(s, NUL)
  {
    var quote := NUL;
    k := 0;
    while k < |s|
      invariant k <= |s|
      invariant quote != ESC && quote != ','
      invariant TokenEnd(s, NUL) == k + TokenEnd(s[k..], quote)
    {
      var c := s[k];
      assert s[k..][1..] == s[k + 1..];
      if IsQuote(c) {
        quote := if c == quote then NUL else c;
      } else if c == ',' && quote == NUL {
        return;
      } else if c == ESC && k + 1 < |s| {
        assert s[k..][2..] == s[k + 2..];
        k := k + 1;
      }
      k := k + 1;
    }
  }

  /** The static cursor p of comma_token and the buffer it walks. */
  class CommaTokenizer {
    var buf: string
    var p: nat

    ghost predicate Valid()
      reads this
    {
      p <= |buf|
    }

    /** The text not yet delivered. */
    ghost function Rest(): string
      requires Valid()
      reads this
    {
      buf[p..]
    }

    constructor (str: string)
      ensures Valid() && Rest() == str
    {
      buf, p := str, 0;
    }

    /** Delivers the next token and overwrites the comma behind it with NUL. */
    method Next() returns (tok: Option<string>)
      requires Valid()
      modifies this
      ensures Valid()
      ensures tok.None? <==> old(Rest()) == ""
      ensures tok.None? ==> Rest() == ""
      ensures tok.Some? ==> Tokens(old(Rest())) == [tok.value] + Tokens(Rest())
      ensures tok.Some? ==> |Rest()| < |old(Rest())|
    {
      if p == |buf| {
        return None;
      }
      ghost var s := buf[p..];
      var k := ScanToken(buf[p..]);
      tok := Some(buf[p..p + k]);
      assert s[..k] == tok.value;
      p := p + k;
      if p < |buf| {
        assert s[k + 1..] == buf[p + 1..];
        buf, p := buf[p := NUL], p + 1;
        assert buf[p..] == s[k + 1..];
      }
    }
  }

  // ----- copy_env_value -----

  /** A shell function exported through the environment. */
  predicate IsFunc(v: string) {
    StartsWith(v, "() {")
  }

  /** The destination after a call, the text the returned pointer stands at, and whether it was NULL instead. */
  datatype Copied = Copied(out: string, rest: string, open: bool)

  /**
   * The state machine of copy_env_value with dest written so far and pv still to read: q is the local
   * quote, global the quote_flg and fn the is_func flag. An unquoted comma ends the value and is consumed.
   */
  function Copy(dest: string, pv: string, q: char, global: bool, fn: bool): (r: Copied)
    ensures |r.rest| <= |pv|
    decreases |pv|
  {
    if pv == "" then Copied(dest, "", q != NUL)
    else
      var c := pv[0];
      if IsQuote(c) then
        if q == c then Copy(dest, pv[1..], NUL, global, fn)
        else if q != NUL || global then Copy(dest + [ESC, c], pv[1..], q, global, fn)
        else Copy(dest, pv[1..], c, global, fn)
      else if c == ESC then
        Copy(dest + if At(pv, 1) != ',' then [c, c] else [c], pv[1..], q, global, fn)
      else if c == ',' then
        if q != NUL || global then Copy(dest + [ESC, c], pv[1..], q, global, fn)
        else if Last(dest) == ESC then Copy(dest + [c], pv[1..], q, global, fn)
        else Copied(dest, pv[1..], false)
      else if c == ';' && fn && At(pv, 1) == '\n' then
        Copy(dest + [c], pv[2..], q, global, fn)
      else Copy(dest + [c], pv[1..], q, global, fn)
  }

  /** The last character of dest; NUL when there is none. */
  function Last(dest: string): char {
    if dest == "" then NUL else dest[|dest| - 1]
  }

  /** Appends the value at pv to dest; rest is where the returned pointer stands, ok is false for NULL. */
  method CopyEnvValue(dest: string, pv: string, global: bool) returns (out: string, rest: string, ok: bool)
    ensures Copied(out, rest, !ok) == Copy(dest, pv, NUL, global, IsFunc(pv))
  {
    var fn := IsFunc(pv);
    var go, q := true, NUL;
    out, rest := dest, pv;
    while go && rest != ""
      invariant if go then Copy(out, rest, q, global, fn) == Copy(dest, pv, NUL, global, fn)
                else Copied(out, rest, q != NUL) == Copy(dest, pv, NUL, global, fn)
      decreases |rest|
    {
      var c := rest[0];
      if IsQuote(c) {
        if q != NUL {
          if q == c {
            q := NUL;
          } else {
            out := out + [ESC, c];
          }
        } else if global {
          out := out + [ESC, c];
        } else {
          q := c;
        }
      } else if c == ESC {
        out := out + if At(rest, 1) != ',' then [c, c] else [c];
      } else if c == ',' {
        if q != NUL || global {
          out := out + [ESC, c];
        } else if Last(out) == ESC {
          out := out + [c];
        } else {
          go := false;
        }
      } else if c == ';' {
        out := out + [c];
        if fn && At(rest, 1) == '\n' {
          rest := rest[1..];
        }
      } else {
        out := out + [c];
      }
      rest := rest[1..];
    }
    ok := q == NUL;
  }

  // ----- when a value is copied as it stands -----

  lemma {:induction false} CopyGrows(dest: string, s: string, q: char, global: bool, fn: bool)
    ensures dest <= Copy(dest, s, q, global, fn).out
    decreases |s|
  {
    if s != "" {
      var c, n := s[0], if s[0] == ';' && fn && At(s, 1) == '\n' then 2 else 1;
      var t := s[n..];
      CopyGrows(dest, t, if q == c then NUL else if q == NUL then c else q, global, fn);
      CopyGrows(dest + [ESC, c], t, q, global, fn);
      CopyGrows(dest + [c, c], t, q, global, fn);
      CopyGrows(dest + [c], t, q, global, fn);
    }
  }

  /** A quote is only written with a backslash in front of it. */
  predicate QuotesEscaped(dest: string, out: string) {
    forall i :: |dest| <= i < |out| && IsQuote(out[i]) ==> i > |dest| && out[i - 1] == ESC
  }

  lemma {:induction false} QuotesBehind(dest: string, add: string, out: string)
    requires dest + add <= out && QuotesEscaped(dest + add, out)
    requires forall i :: 0 <= i < |add| && IsQuote(add[i]) ==> i > 0 && add[i - 1] == ESC
    ensures QuotesEscaped(dest, out)
  {
    assert forall i :: |dest| <= i < |dest + add| ==> out[i] == (dest + add)[i] == add[i - |dest|];
  }

  lemma {:induction false} CopyEscapesQuotes(dest: string, s: string, q: char, fn: bool)
    ensures QuotesEscaped(dest, Copy(dest, s, q, false, fn).out)
    decreases |s|
  {
    if s != "" {
      var r := Copy(dest, s, q, false, fn).out;
      var c, n := s[0], if s[0] == ';' && fn && At(s, 1) == '\n' then 2 else 1;
      var t := s[n..];
      if IsQuote(c) && (q == c || q == NUL) {
        CopyEscapesQuotes(dest, t, if q == c then NUL else c, fn);
      } else if c == ',' && q == NUL && Last(dest) != ESC {
      } else {
        var add := if IsQuote(c) || (c == ',' && q != NUL) then [ESC, c]
                   else if c == ESC && At(s, 1) != ',' then [c, c] else [c];
        assert r == Copy(dest + add, t, q, false, fn).out;
        CopyGrows(dest + add, t, q, false, fn);
        CopyEscapesQuotes(dest + add, t, q, fn);
        hide Copy, QuotesEscaped;
        QuotesBehind(dest, add, r);
      }
    }
  }

  /** Nothing in s, which follows prev, is for copy_env_value to change: no quote, commas exactly behind backslashes,
      and no newline that a shell function loses. */
  predicate Steady(s: string, prev: char, fn: bool) {
    s == "" ||
    (!IsQuote(s[0]) && (s[0] == ESC ==> At(s, 1) == ',') && (s[0] == ',' ==> prev == ESC) &&
     !(fn && s[0] == ';' && At(s, 1) == '\n') && Steady(s[1..], s[0], fn))
  }

  /** Backslashes that were doubled are not made up for. */
  lemma {:induction false} Ahead(d: string, k: nat, s: string, fn: bool)
    requires k > 0
    ensures Copy(d + seq(k, _ => ESC), s, NUL, false, fn).out != d + s
    decreases |s|
  {
    var more := seq(k, _ => ESC);
    CopyGrows(d + more, s, NUL, false, fn);
    var r := Copy(d + more, s, NUL, false, fn).out;
    assert r[|d|] == (d + more)[|d|] == ESC;
    if s != "" && s[0] == ESC {
      var j := if At(s, 1) != ',' then k + 1 else k;
      assert d + more + (if At(s, 1) != ',' then [ESC, ESC] else [ESC]) == d + [ESC] + seq(j, _ => ESC);
      Ahead(d + [ESC], j, s[1..], fn);
      assert d + [ESC] + s[1..] == d + s;
    } else if s != "" {
      assert (d + s)[|d|] == s[0];
    }
  }

  /** Nor is a newline that was dropped. */
  lemma {:induction false} Behind(d: string, s: string, fn: bool)
    requires Last(d) != ESC
    ensures Copy(d, s, NUL, false, fn).out != d + ['\n'] + s
    decreases |s|
  {
    var r := Copy(d, s, NUL, false, fn).out;
    var target := d + ['\n'] + s;
    if s != "" {
      assert target[|d|] == '\n' && target[|d| + 1] == s[0];
      if IsQuote(s[0]) {
        CopyEscapesQuotes(d, s, NUL, fn);
      } else if s[0] == '\n' {
        Behind(d + [s[0]], s[1..], fn);
        assert d + [s[0]] + ['\n'] + s[1..] == target;
      } else if s[0] != ',' {
        var add := if s[0] == ESC && At(s, 1) != ',' then [s[0], s[0]] else [s[0]];
        var n := if s[0] == ';' && fn && At(s, 1) == '\n' then 2 else 1;
        CopyGrows(d + add, s[n..], NUL, false, fn);
        assert r[|d|] == (d + add)[|d|] == s[0];
      }
    }
  }

  /** copy_env_value leaves a text as it stands if and only if there is nothing in it to change. */
  lemma {:induction false} CopyIsIdentity(dest: string, s: string, fn: bool)
    ensures Copy(dest, s, NUL, false, fn) == Copied(dest + s, "", false) <==> Steady(s, Last(dest), fn)
    decreases |s|
  {
    if s == "" {
      assert dest + s == dest;
    } else {
      var c, t := s[0], s[1..];
      assert dest + [c] + t == dest + s;
      if IsQuote(c) {
        CopyEscapesQuotes(dest, s, NUL, fn);
        assert (dest + s)[|dest|] == c;
      } else if c == ESC && At(s, 1) != ',' {
        assert dest + [c, c] == dest + [ESC] + seq(1, _ => ESC);
        Ahead(dest + [ESC], 1, t, fn);
      } else if c == ',' && Last(dest) != ESC {
      } else if fn && c == ';' && At(s, 1) == '\n' {
        Behind(dest + [c], s[2..], fn);
        assert dest + [c] + ['\n'] + s[2..] == dest + s;
      } else {
        CopyIsIdentity(dest + [c], t, fn);
      }
    }
  }

  // ----- what escaping a whole value writes (quote_flg set) -----

  /** v with every newline that directly follows a semicolon removed. */
  function DropNewlines(v: string): (r: string)
    ensures |r| <= |v|
    ensures |r| == |v| <==> !HasPair(v, ';', '\n')
  {
    if v == "" then ""
    else if v[0] == ';' && At(v, 1) == '\n' then [v[0]] + DropNewlines(v[2..])
    else [v[0]] + DropNewlines(v[1..])
  }

  /** What becomes of a value: a shell function loses its newlines after semicolons. */
  function Kept(v: string): string {
    if IsFunc(v) then DropNewlines(v) else v
  }

  lemma {:induction false} KeptAll(v: string)
    ensures Kept(v) == v <==> !(IsFunc(v) && HasPair(v, ';', '\n'))
  {
    DropNothing(v);
  }

  lemma {:induction false} DropNothing(v: string)
    ensures DropNewlines(v) == v <==> !HasPair(v, ';', '\n')
  {
    if v != "" && !(v[0] == ';' && At(v, 1) == '\n') {
      DropNothing(v[1..]);
    }
  }

  /** How the character at the front of v is written. A backslash in front of a comma is not doubled. */
  function Unit(v: string): string
    requires v != ""
  {
    if IsQuote(v[0]) || v[0] == ',' || (v[0] == ESC && At(v, 1) != ',') then [ESC, v[0]] else [v[0]]
  }

  /** How many characters of v one turn of the loop consumes. */
  function Turn(v: string, fn: bool): nat
    requires v != ""
    ensures 1 <= Turn(v, fn) <= |v|
  {
    if v[0] == ';' && fn && At(v, 1) == '\n' then 2 else 1
  }

  /** The escaped form of a value. */
  function Escaped(v: string, fn: bool): string {
    if v == "" then "" else Unit(v) + Escaped(v[Turn(v, fn)..], fn)
  }

  lemma {:induction false} CopyGlobal(dest: string, v: string, fn: bool)
    ensures Copy(dest, v, NUL, true, fn) == Copied(dest + Escaped(v, fn), "", false)
    decreases |v|
  {
    if v != "" {
      CopyGlobal(dest + Unit(v), v[Turn(v, fn)..], fn);
      assert dest + Unit(v) + Escaped(v[Turn(v, fn)..], fn) == dest + Escaped(v, fn);
    }
  }

  /** One escaped or plain character in front of x. */
  lemma {:induction false} UnitScan(u: string, x: string)
    requires (|u| == 1 && !IsQuote(u[0]) && u[0] != ',' && u[0] != ESC) || (|u| == 2 && u[0] == ESC)
    ensures TokenEnd(u + x, NUL) == |u| + TokenEnd(x, NUL)
    ensures Unescape(u + x) == [u[|u| - 1]] + Unescape(x)
  {
    assert (u + x)[|u|..] == x;
  }

  lemma {:induction false} EscapedUnfold(v: string, fn: bool, t: string)
    requires v != ""
    ensures Escaped(v, fn) + t == Unit(v) + (Escaped(v[Turn(v, fn)..], fn) + t)
  {
  }

  lemma {:induction false} PairAfterTurn(v: string, fn: bool)
    requires v != "" && !(v[0] == ESC && At(v, 1) == ',')
    ensures HasPair(v[Turn(v, fn)..], ESC, ',') == HasPair(v, ESC, ',')
  {
    if Turn(v, fn) == 2 {
      assert v[1..][1..] == v[2..];
    }
  }

  /** Without a backslash-comma pair in the value, an escaped value is exactly one token... */
  lemma {:induction false} EscapedIsOneToken(v: string, fn: bool, t: string)
    requires !HasPair(v, ESC, ',') && AtEnd(t)
    ensures TokenEnd(Escaped(v, fn) + t, NUL) == |Escaped(v, fn)|
    decreases |v|
  {
    if v == "" {
      assert Escaped(v, fn) + t == t;
    } else {
      hide TokenEnd, Unescape, Escaped;
      var w := v[Turn(v, fn)..];
      PairAfterTurn(v, fn);
      EscapedIsOneToken(w, fn, t);
      UnitScan(Unit(v), Escaped(w, fn) + t);
      EscapedUnfold(v, fn, t);
    }
  }

  /** ... and dropping the escaping backslashes gives the value back, less the lost newlines. */
  lemma {:induction false} EscapedRecovers(v: string, fn: bool)
    requires !HasPair(v, ESC, ',')
    ensures Unescape(Escaped(v, fn)) == if fn then DropNewlines(v) else v
    decreases |v|
  {
    if v != "" {
      PairAfterTurn(v, fn);
      EscapedRecovers(v[Turn(v, fn)..], fn);
      UnitScan(Unit(v), Escaped(v[Turn(v, fn)..], fn));
    }
  }

  lemma {:induction false} CutAtPair(v: string, fn: bool, t: string)
    requires |v| >= 2 && v[0] == ESC && v[1] == ','
    ensures var e := Escaped(v, fn) + t; TokenEnd(e, NUL) == 2 && Unescape(e[..2]) == [ESC]
  {
    var w := v[1..];
    var x := [','] + (Escaped(w[1..], fn) + t);
    assert Escaped(v, fn) + t == [ESC, ESC] + x;
    UnitScan([ESC, ESC], x);
    UnitScan([ESC, ESC], "");
    assert ([ESC, ESC] + x)[..2] == [ESC, ESC] + "";
  }

  lemma {:induction false} PairIsLong(v: string)
    requires HasPair(v, ESC, ',')
    ensures |v| >= 2
  {
  }

  /** A token one unit longer unescapes to a text one character longer. */
  lemma {:induction false} UnitBeforeCut(u: string, f: string)
    requires (|u| == 1 && !IsQuote(u[0]) && u[0] != ',' && u[0] != ESC) || (|u| == 2 && u[0] == ESC)
    ensures |Unescape((u + f)[..TokenEnd(u + f, NUL)])| == 1 + |Unescape(f[..TokenEnd(f, NUL)])|
  {
    hide TokenEnd, Unescape;
    UnitScan(u, f);
    var k := TokenEnd(f, NUL);
    assert (u + f)[..|u| + k] == u + f[..k];
    UnitScan(u, f[..k]);
  }

  /** With such a pair the token is cut there, and what is recovered from it is too short. */
  lemma {:induction false} EscapedIsCut(v: string, fn: bool, t: string)
    requires HasPair(v, ESC, ',')
    ensures var e := Escaped(v, fn) + t; |Unescape(e[..TokenEnd(e, NUL)])| < |v|
    decreases |v|
  {
    PairIsLong(v);
    hide TokenEnd, Unescape, HasPair, Escaped;
    if v[0] == ESC && v[1] == ',' {
      CutAtPair(v, fn, t);
    } else {
      var w := v[Turn(v, fn)..];
      EscapedUnfold(v, fn, t);
      PairAfterTurn(v, fn);
      EscapedIsCut(w, fn, t);
      UnitBeforeCut(Unit(v), Escaped(w, fn) + t);
    }
  }

  // ----- tokens in front of other text -----

  lemma {:induction false} TokenAtEnd(t: string)
    requires AtEnd(t)
    ensures TokenEnd(t, NUL) == 0
  {
  }

  lemma {:induction false} CleanPrefix(x: string, y: string)
    requires Clean(x)
    ensures TokenEnd(x + y, NUL) == |x| + TokenEnd(y, NUL)
    ensures Unescape(x + y) == x + Unescape(y)
  {
    hide TokenEnd, Unescape;
    if x == "" {
      assert x + y == y;
    } else {
      CleanPrefix(x[1..], y);
      UnitScan([x[0]], x[1..] + y);
      assert x + y == [x[0]] + (x[1..] + y);
    }
  }

  lemma {:induction false} TokensUnfold(x: string, y: string)
    requires x + y != "" && TokenEnd(x + y, NUL) == |x|
    ensures Tokens(x + y) == [x] + if y == "" then [] else Tokens(y[1..])
  {
    hide TokenEnd;
    assert (x + y)[..|x|] == x;
    if y != "" {
      assert (x + y)[|x| + 1..] == y[1..];
    }
  }
}
