/**
 * The variable list of a job, whatever text is given to -v: expand_varlist, set_job_env, the server and qstat
 * (src/cmds/qsub.c:521-620, 4095-4218 and src/cmds/qstat.c:395-418).
 */
module JobList {
  import opened CText
  import opened EnvText
  import opened CommaEscape
  import opened JobEnv
  import opened VariableList
  import QstatEnv
  import opened ServerList

  /** A name with the text that expand_varlist writes behind it. */
  datatype Written = Written(key: string, text: string) {
    function Line(): string {
      key + "=" + text
    }
  }

  /** What expand_varlist writes for a token; None when it gives up, nothing for a bare name of qsub's own. */
  function Write(t: string, env: Env): Option<seq<Written>> {
    var k := IndexOf(t, '=');
    if k < |t| then
      var c := Copy("", t[k + 1..], NUL, false, IsFunc(t[k + 1..]));
      if c.open then None else Some([Written(t[..k], c.out)])
    else if StartsWith(t, PBS_O_ENV) then Some([])
    else if t !in env then None
    else Some([Written(t, Escaped(env[t], IsFunc(env[t])))])
  }

  function WriteAll(ts: seq<string>, env: Env): Option<seq<Written>> {
    if ts == [] then Some([])
    else match Write(ts[0], env)
      case None => None
      case Some(w) =>
        match WriteAll(ts[1..], env)
        case None => None
        case Some(ws) => Some(w + ws)
  }

  /** Each with a comma in front. */
  function Lines(ws: seq<Written>): string {
    if ws == [] then "" else "," + ws[0].Line() + Lines(ws[1..])
  }

  function List(ws: seq<Written>): string {
    if ws == [] then "" else ws[0].Line() + Lines(ws[1..])
  }

  // ----- expand_varlist -----

  /** What is written does not depend on what stands in front of it. */
  lemma {:induction false} CopyShift(d: string, e: string, s: string, q: char, global: bool, fn: bool)
    requires e != "" || Last(d) != ESC
    ensures var r := Copy(e, s, q, global, fn);
            Copy(d + e, s, q, global, fn) == Copied(d + r.out, r.rest, r.open)
    decreases |s|
  {
    if s != "" {
      assert Last(d + e) == ESC <==> Last(e) == ESC;
      var c, n := s[0], if s[0] == ';' && fn && At(s, 1) == '\n' then 2 else 1;
      var t := s[n..];
      if IsQuote(c) && (q == c || (q == NUL && !global)) {
        CopyShift(d, e, t, if q == c then NUL else c, global, fn);
      } else if c == ',' && q == NUL && !global && Last(e) != ESC {
      } else {
        var add := if IsQuote(c) || (c == ',' && (q != NUL || global)) then [ESC, c]
                   else if c == ESC && At(s, 1) != ',' then [c, c] else [c];
        CopyShift(d, e + add, t, q, global, fn);
        assert d + e + add == d + (e + add);
      }
    }
  }

  lemma {:induction false} LinesAppend(a: seq<Written>, w: Written)
    ensures Lines(a + [w]) == Lines(a) + "," + w.Line()
  {
    if a == [] {
      assert a + [w] == [w] && [w][1..] == [];
    } else {
      assert (a + [w])[1..] == a[1..] + [w];
      LinesAppend(a[1..], w);
    }
  }

  lemma {:induction false} ListAppend(a: seq<Written>, w: Written)
    ensures Sep(List(a)) + w.Line() == List(a + [w])
  {
    if a == [] {
      assert a + [w] == [w] && [w][1..] == [];
    } else {
      assert (a + [w])[1..] == a[1..] + [w];
      LinesAppend(a[1..], w);
      hide Lines;
    }
  }

  lemma {:induction false} WriteToken(t: string, env: Env, a: seq<Written>)
    ensures ExpandToken(t, env, List(a))
         == match Write(t, env)
            case None => None
            case Some(w) => Some(List(a + w))
  {
    hide Copy, Escaped, List;
    var k := IndexOf(t, '=');
    var dest := Sep(List(a)) + t[..k] + "=";
    if k < |t| {
      var x := t[k + 1..];
      CopyShift(dest, "", x, NUL, false, IsFunc(x));
      assert dest + "" == dest;
      var w := Written(t[..k], Copy("", x, NUL, false, IsFunc(x)).out);
      ListAppend(a, w);
      assert Sep(List(a)) + w.Line() == dest + w.text;
    } else if StartsWith(t, PBS_O_ENV) {
      assert a + [] == a;
    } else if t in env {
      CopyGlobal(dest, env[t], IsFunc(env[t]));
      assert t[..k] == t;
      var w := Written(t, Escaped(env[t], IsFunc(env[t])));
      ListAppend(a, w);
      assert Sep(List(a)) + w.Line() == dest + w.text;
    }
  }

  lemma {:induction false} ExpandFrom(ts: seq<string>, env: Env, a: seq<Written>)
    ensures ExpandTokens(ts, env, List(a))
         == match WriteAll(ts, env)
            case None => None
            case Some(ws) => Some(List(a + ws))
  {
    hide ExpandToken, Write, List;
    if ts == [] {
      assert a + [] == a;
    } else {
      WriteToken(ts[0], env, a);
      match Write(ts[0], env)
      case None =>
      case Some(w) =>
        ExpandFrom(ts[1..], env, a + w);
        match WriteAll(ts[1..], env)
        case None =>
        case Some(ws) => assert a + w + ws == a + (w + ws);
    }
  }

  /** expand_varlist writes the tokens of any -v text, or gives up at one of them. */
  lemma {:induction false} ExpandWrites(s: string, env: Env)
    ensures ExpandTokens(Tokens(s), env, "")
         == match WriteAll(Tokens(s), env)
            case None => None
            case Some(ws) => Some(List(ws))
  {
    hide ExpandTokens, Tokens, WriteAll;
    ExpandFrom(Tokens(s), env, []);
    match WriteAll(Tokens(s), env)
    case None =>
    case Some(ws) => assert [] + ws == ws;
  }

  // ----- the texts that expand_varlist writes -----

  /** Quotes and commas stand directly behind backslashes. */
  predicate Fenced(x: string) {
    forall i :: 0 <= i < |x| && (IsQuote(x[i]) || x[i] == ',') ==> i > 0 && x[i - 1] == ESC
  }

  /** The text ends in no backslash or in two. */
  predicate EndsPaired(x: string) {
    Last(x) == ESC ==> |x| >= 2 && x[|x| - 2] == ESC
  }

  predicate Guarded(x: string) {
    Fenced(x) && EndsPaired(x)
  }

  lemma {:induction false} FencedMore(x: string, add: string)
    requires Fenced(x)
    requires
      || (|add| == 1 && !IsQuote(add[0]) && (add[0] == ',' ==> Last(x) == ESC))
      || (|add| == 2 && add[0] == ESC)
    ensures Fenced(x + add)
  {
    assert forall i :: 0 <= i < |x| ==> (x + add)[i] == x[i];
    assert forall i :: 0 <= i < |add| ==> (x + add)[|x| + i] == add[i];
  }

  lemma {:induction false} CopyGuards(dest: string, s: string, q: char, global: bool, fn: bool)
    requires Fenced(dest) && (EndsPaired(dest) || At(s, 0) == ',')
    ensures Guarded(Copy(dest, s, q, global, fn).out)
    decreases |s|
  {
    if s != "" {
      var c, n := s[0], if s[0] == ';' && fn && At(s, 1) == '\n' then 2 else 1;
      var t := s[n..];
      if IsQuote(c) && (q == c || (q == NUL && !global)) {
        CopyGuards(dest, t, if q == c then NUL else c, global, fn);
      } else if c == ',' && q == NUL && !global && Last(dest) != ESC {
      } else {
        var add := if IsQuote(c) || (c == ',' && (q != NUL || global)) then [ESC, c]
                   else if c == ESC && At(s, 1) != ',' then [c, c] else [c];
        FencedMore(dest, add);
        hide Fenced;
        CopyGuards(dest + add, t, q, global, fn);
      }
    }
  }

  predicate AllGuarded(ws: seq<Written>) {
    forall i :: 0 <= i < |ws| ==> Guarded(ws[i].text)
  }

  lemma {:induction false} TokenGuarded(t: string, env: Env)
    ensures Write(t, env).Some? ==> AllGuarded(Write(t, env).value)
  {
    var k := IndexOf(t, '=');
    hide Copy, Escaped, Guarded;
    assert Fenced("") && EndsPaired("");
    if k < |t| {
      CopyGuards("", t[k + 1..], NUL, false, IsFunc(t[k + 1..]));
    } else if t in env {
      CopyGlobal("", env[t], IsFunc(env[t]));
      CopyGuards("", env[t], NUL, true, IsFunc(env[t]));
      assert "" + Escaped(env[t], IsFunc(env[t])) == Escaped(env[t], IsFunc(env[t]));
    }
  }

  lemma {:induction false} WrittenGuarded(ts: seq<string>, env: Env)
    ensures WriteAll(ts, env).Some? ==> AllGuarded(WriteAll(ts, env).value)
  {
    if ts != [] {
      hide Write, Guarded;
      TokenGuarded(ts[0], env);
      WrittenGuarded(ts[1..], env);
    }
  }

  // ----- counting backslashes -----

  function Backslash(s: string): nat {
    if s == "" then 0 else (if s[0] == ESC then 1 else 0) + Backslash(s[1..])
  }

  /** As many as copy_env_value writes at least: two for one that is not in front of a comma. */
  function Doubled(s: string): nat {
    if s == "" then 0
    else (if s[0] != ESC then 0 else if At(s, 1) == ',' then 1 else 2) + Doubled(s[1..])
  }

  lemma {:induction false} BackslashAppend(a: string, b: string)
    ensures Backslash(a + b) == Backslash(a) + Backslash(b)
  {
    if a == "" {
      assert a + b == b;
    } else {
      assert (a + b)[1..] == a[1..] + b;
      BackslashAppend(a[1..], b);
    }
  }

  lemma {:induction false} CopyDoubles(dest: string, s: string, q: char, fn: bool)
    ensures var r := Copy(dest, s, q, false, fn); Backslash(r.out) + Doubled(r.rest) >= Backslash(dest) + Doubled(s)
    decreases |s|
  {
    if s != "" {
      var c, n := s[0], if s[0] == ';' && fn && At(s, 1) == '\n' then 2 else 1;
      var t := s[n..];
      DoubledTurn(s, n);
      hide Doubled, Backslash;
      if IsQuote(c) && (q == c || q == NUL) {
        CopyDoubles(dest, t, if q == c then NUL else c, fn);
      } else if c == ',' && q == NUL && Last(dest) != ESC {
      } else {
        var add := if IsQuote(c) || (c == ',' && q != NUL) then [ESC, c]
                   else if c == ESC && At(s, 1) != ',' then [c, c] else [c];
        BackslashAppend(dest, add);
        BackslashFew(add);
        CopyDoubles(dest + add, t, q, fn);
      }
    }
  }

  lemma {:induction false} DoubledTurn(s: string, n: nat)
    requires 1 <= n <= 2 && n <= |s| && (n == 2 ==> s[0] != ESC && s[1] != ESC)
    ensures Doubled(s) == Doubled(s[n..]) + if s[0] != ESC then 0 else if At(s, 1) == ',' then 1 else 2
  {
    if n == 2 {
      assert s[1..][1..] == s[2..];
    }
  }

  lemma {:induction false} BackslashFew(s: string)
    requires 1 <= |s| <= 2
    ensures Backslash(s) == (if s[0] == ESC then 1 else 0) + if |s| == 2 && s[1] == ESC then 1 else 0
  {
    if |s| == 2 {
      assert s[1..][1..] == "" && Backslash(s[1..][1..]) == 0;
    }
  }

  /** Some backslash is directly in front of a character other than a comma. */
  predicate Loose(s: string) {
    exists i :: 0 <= i < |s| - 1 && s[i] == ESC && s[i + 1] != ','
  }

  lemma {:induction false} LooseIsDoubled(s: string)
    ensures Doubled(s) >= Backslash(s) && (Loose(s) ==> Doubled(s) > Backslash(s))
  {
    if s != "" {
      LooseIsDoubled(s[1..]);
      if Loose(s) && !(s[0] == ESC && At(s, 1) != ',') {
        var i :| 0 <= i < |s| - 1 && s[i] == ESC && s[i + 1] != ',';
        assert s[1..][i - 1] == s[i] && s[1..][i] == s[i + 1];
      }
    }
  }

  lemma {:induction false} LooseInside(a: string, b: string, c: string)
    requires Loose(b)
    ensures Loose(a + b + c)
  {
    var i :| 0 <= i < |b| - 1 && b[i] == ESC && b[i + 1] != ',';
    var s, j := a + b + c, |a| + i;
    assert s[j] == ESC && s[j + 1] != ',';
  }

  // ----- set_job_env on the list -----

  predicate PlainNames(ws: seq<Written>) {
    forall i :: 0 <= i < |ws| ==> PlainName(ws[i].key)
  }

  /** The names that do not start with PBS_O_ are all. */
  predicate NoneOwn(ws: seq<Written>) {
    forall i :: 0 <= i < |ws| ==> !StartsWith(ws[i].key, PBS_O_ENV)
  }

  /** Every comma of y is directly behind a backslash, for its first character by what is in front. */
  predicate FencedBehind(dest: string, y: string) {
    && (At(y, 0) == ',' ==> Last(dest) == ESC)
    && forall i :: 0 < i < |y| && y[i] == ',' ==> y[i - 1] == ESC
  }

  lemma {:induction false} LineFenced(dest: string, w: Written)
    requires PlainName(w.key) && Guarded(w.text)
    ensures FencedBehind(dest, w.Line())
  {
    var y := w.Line();
    assert forall i :: 0 <= i < |w.key| ==> y[i] == w.key[i];
    assert forall i :: 0 <= i < |w.text| ==> y[|w.key| + 1 + i] == w.text[i];
    assert forall i :: |w.key| < i < |y| ==> y[i] == w.text[i - |w.key| - 1];
  }

  lemma {:induction false} FencedOn(dest: string, y: string, n: nat, add: string)
    requires FencedBehind(dest, y) && 1 <= n <= 2 && n <= |y| && add != ""
    requires n == 2 ==> y[1] != ESC
    requires y[0] == ESC ==> Last(add) == ESC
    ensures FencedBehind(dest + add, y[n..])
  {
    assert Last(dest + add) == Last(add);
    assert forall i :: 0 <= i < |y| - n ==> y[n..][i] == y[n + i];
  }

  lemma {:induction false} FencedBehindQuote(dest: string, y: string)
    requires FencedBehind(dest, y) && y != "" && IsQuote(y[0])
    ensures FencedBehind(dest, y[1..])
  {
    assert forall i :: 0 <= i < |y| - 1 ==> y[1..][i] == y[1 + i];
  }

  lemma {:induction false} Dropped(y: string, n: nat, z: string)
    requires n <= |y|
    ensures (y + z)[n..] == y[n..] + z
  {
  }

  /** copy_env_value stops in front of some of the lines that follow, wherever a quote leads it. */
  lemma {:induction false} StopsAtLine(dest: string, y: string, ws: seq<Written>, q: char, fn: bool) returns (k: nat)
    requires FencedBehind(dest, y) && PlainNames(ws) && AllGuarded(ws)
    ensures k <= |ws| && Copy(dest, y + Lines(ws), q, false, fn).rest == List(ws[k..])
    decreases |ws|, |y|
  {
    var s := y + Lines(ws);
    k := 0;
    if y == "" && ws == [] {
    } else if y == "" {
      var line := ws[0].Line();
      assert s == [','] + (line + Lines(ws[1..]));
      if q == NUL && Last(dest) != ESC {
        assert ws[0..] == ws;
      } else {
        var add := if q != NUL then [ESC, ','] else [','];
        LineFenced(dest + add, ws[0]);
        hide Lines, List, FencedBehind, PlainNames, AllGuarded;
        k := StopsAtLine(dest + add, line, ws[1..], q, fn);
        k := k + 1;
        assert ws[1..][k - 1..] == ws[k..];
      }
    } else {
      var c, n := s[0], if s[0] == ';' && fn && At(s, 1) == '\n' then 2 else 1;
      assert |y| == 1 ==> At(s, 1) == At(Lines(ws), 0) != '\n';
      assert c == ',' ==> Last(dest) == ESC;
      Dropped(y, n, Lines(ws));
      var t := y[n..];
      hide Lines, List, FencedBehind, PlainNames, AllGuarded;
      if IsQuote(c) && (q == c || q == NUL) {
        FencedBehindQuote(dest, y);
        k := StopsAtLine(dest, t, ws, if q == c then NUL else c, fn);
      } else {
        var add := if IsQuote(c) || (c == ',' && q != NUL) then [ESC, c]
                   else if c == ESC && At(s, 1) != ',' then [c, c] else [c];
        FencedOn(dest, y, n, add);
        k := StopsAtLine(dest + add, t, ws, q, fn);
      }
    }
  }

  lemma {:induction false} NameHasNoBackslash(n: string, y: string)
    requires Clean(n)
    ensures Backslash(n + "=" + y) == Backslash(y) && Doubled(n + "=" + y) == Doubled(y)
  {
    var s := n + "=" + y;
    if n == "" {
      assert s[1..] == y;
    } else {
      assert s[1..] == n[1..] + "=" + y;
      NameHasNoBackslash(n[1..], y);
    }
  }

  lemma {:induction false} ListFirst(ws: seq<Written>)
    requires ws != []
    ensures List(ws) == ws[0].key + "=" + (ws[0].text + Lines(ws[1..]))
  {
    assert List(ws) == ws[0].Line() + Lines(ws[1..]);
  }

  lemma {:induction false} TextFenced(dest: string, x: string)
    requires Guarded(x)
    ensures FencedBehind(dest, x)
  {
  }

  /** The copying of the first text, and of whatever it takes along. */
  lemma {:induction false} CopyFirst(w: Written, rest: seq<Written>, acc: string) returns (k: nat)
    requires Guarded(w.text) && Clean(w.key) && PlainNames(rest) && AllGuarded(rest)
    ensures var x := w.text + Lines(rest);
            var r := Copy(acc + "," + w.key + "=", x, NUL, false, IsFunc(x));
            && k <= |rest| && r.rest == List(rest[k..])
            && Backslash(r.out) + Doubled(r.rest) >= Backslash(acc) + Doubled(w.key + "=" + x)
  {
    var dest := acc + "," + w.key + "=";
    var x := w.text + Lines(rest);
    assert Last(dest) == '=' && acc + ("," + w.key + "=") == dest;
    hide *;
    TextFenced(dest, w.text);
    NameHasNoBackslash(w.key, x);
    k := StopsAtLine(dest, w.text, rest, NUL, IsFunc(x));
    CopyDoubles(dest, x, NUL, IsFunc(x));
    BackslashAppend(acc, "," + w.key + "=");
  }

  /** However set_job_env takes the list apart, the backslashes that it reads are doubled. */
  lemma {:induction false} WalkDoubles(ws: seq<Written>, env: Env, acc: string)
    requires PlainNames(ws) && NoneOwn(ws) && AllGuarded(ws)
    ensures var r := Walk(List(ws), env, false, acc);
            r.Built? ==> Backslash(r.list) >= Backslash(acc) + Doubled(List(ws))
    decreases |ws|
  {
    if ws == [] {
      WalkStops("", env, false, acc);
    } else {
      var w, rest := ws[0], ws[1..];
      var x := w.text + Lines(rest);
      var r := WithValue(w.key, x, acc);
      ListFirst(ws);
      assert r == Copy(acc + "," + w.key + "=", x, NUL, false, IsFunc(x));
      WalkGiven(w.key, x, env, acc);
      var k := CopyFirst(w, rest, acc);
      if !r.open {
        WalkDoubles(rest[k..], env, r.out);
      }
      hide *;
    }
  }

  // ----- the lists that it leaves as they are -----

  /** There is nothing in any of the texts for a second copy_env_value to change. */
  predicate AllSteady(ws: seq<Written>) {
    forall i :: 0 <= i < |ws| ==> Steady(ws[i].text, '=', IsFunc(ws[i].text))
  }

  predicate AnyLoose(ws: seq<Written>) {
    exists i :: 0 <= i < |ws| && Loose(ws[i].text)
  }

  lemma {:induction false} LooseInLines(ws: seq<Written>)
    requires AnyLoose(ws)
    ensures Loose(Lines(ws))
  {
    var i :| 0 <= i < |ws| && Loose(ws[i].text);
    hide Loose;
    var front := "," + ws[0].key + "=";
    assert Lines(ws) == front + ws[0].text + Lines(ws[1..]);
    if i == 0 {
      LooseInside(front, ws[0].text, Lines(ws[1..]));
    } else {
      assert Loose(ws[1..][i - 1].text);
      LooseInLines(ws[1..]);
      assert Lines(ws) == front + ws[0].text + Lines(ws[1..]) + "";
      LooseInside(front + ws[0].text, Lines(ws[1..]), "");
    }
  }

  lemma {:induction false} LinesAreList(ws: seq<Written>)
    requires ws != []
    ensures Lines(ws) == [','] + List(ws)
    ensures Backslash(Lines(ws)) == Backslash(List(ws)) && Doubled(Lines(ws)) == Doubled(List(ws))
  {
    assert Lines(ws)[1..] == List(ws);
  }

  /** A backslash that is not in front of a comma shows in the list. */
  lemma {:induction false} LooseIsChanged(ws: seq<Written>, env: Env, acc: string)
    requires PlainNames(ws) && NoneOwn(ws) && AllGuarded(ws) && AnyLoose(ws)
    ensures Walk(List(ws), env, false, acc) != Built(acc + Lines(ws))
  {
    LooseInLines(ws);
    LinesAreList(ws);
    LooseIsDoubled(Lines(ws));
    WalkDoubles(ws, env, acc);
    BackslashAppend(acc, Lines(ws));
  }

  lemma {:induction false} TightFront(x: string)
    requires Guarded(x) && !Loose(x) && x != ""
    ensures !IsQuote(x[0]) && x[0] != ',' && (x[0] == ESC ==> |x| > 1 && x[1] == ',')
    ensures var t := if x[0] == ESC then x[2..] else x[1..]; Guarded(t) && !Loose(t)
  {
    assert x[0] == ESC ==> |x| > 1 && x[1] == ',';
    var n := if x[0] == ESC then 2 else 1;
    var t := x[n..];
    assert forall i :: 0 <= i < |t| ==> t[i] == x[n + i];
  }

  /** Otherwise it is a value with its commas escaped. */
  lemma {:induction false} TightIsEscaped(x: string)
    requires Guarded(x) && !Loose(x)
    ensures PlainValue(Unescape(x)) && EscCommas(Unescape(x)) == x
    decreases |x|
  {
    if x != "" {
      TightFront(x);
      var n, c := if x[0] == ESC then 2 else 1, if x[0] == ESC then ',' else x[0];
      var t := x[n..];
      assert Unescape(x) == [c] + Unescape(t);
      assert x == (if c == ',' then [ESC, ','] else [c]) + t;
      hide Guarded, Loose, Unescape, PlainValue, EscCommas;
      TightIsEscaped(t);
      OneMore(c, Unescape(t));
    }
  }

  lemma {:induction false} OneMore(c: char, v: string)
    requires PlainValue(v) && !IsQuote(c) && c != ESC
    ensures PlainValue([c] + v) && EscCommas([c] + v) == (if c == ',' then [ESC, ','] else [c]) + EscCommas(v)
  {
    assert ([c] + v)[1..] == v;
  }

  /** A text is steady iff every backslash is in front of a comma and no newline goes. */
  lemma {:induction false} SteadyIs(x: string)
    requires Guarded(x)
    ensures Steady(x, '=', IsFunc(x)) <==> !Loose(x) && Kept(Unescape(x)) == Unescape(x)
  {
    hide Copy, Steady, Unescape, Kept, Guarded;
    CopyIsIdentity("=", x, IsFunc(x));
    assert Last("=") == '=';
    if Loose(x) {
      LooseIsDoubled(x);
      CopyDoubles("=", x, NUL, IsFunc(x));
      BackslashAppend("=", x);
    } else {
      TightIsEscaped(x);
      var v := Unescape(x);
      assert x + "" == x;
      CopyEntry("=", v, "");
      KeptPlain(v);
      assert ("=" + EscCommas(Kept(v)))[1..] == EscCommas(Kept(v)) && ("=" + x)[1..] == x;
      EscCommasInjective(Kept(v), v);
    }
  }

  /** The variables that the lines stand for. */
  function Variables(ws: seq<Written>): seq<Entry> {
    if ws == [] then [] else [Entry(ws[0].key, Unescape(ws[0].text))] + Variables(ws[1..])
  }

  /** Without the names of qsub's own. */
  function NotOwn(ws: seq<Written>): seq<Written> {
    if ws == [] then [] else (if StartsWith(ws[0].key, PBS_O_ENV) then [] else [ws[0]]) + NotOwn(ws[1..])
  }

  lemma {:induction false} TightLines(ws: seq<Written>)
    requires PlainNames(ws) && AllGuarded(ws) && !AnyLoose(ws)
    ensures Tail(Variables(ws)) == Lines(ws) && Join(Variables(ws)) == List(ws)
    ensures forall e <- Variables(ws) :: PlainName(e.key) && PlainValue(e.value)
  {
    if ws != [] {
      TightIsEscaped(ws[0].text);
      assert forall i :: 0 <= i < |ws| - 1 ==> ws[1..][i] == ws[i + 1];
      hide Loose, Guarded, PlainName, PlainValue, EscCommas, Unescape;
      TightLines(ws[1..]);
      assert Variables(ws)[1..] == Variables(ws[1..]);
    }
  }

  lemma {:induction false} SteadyAreTight(ws: seq<Written>)
    requires AllGuarded(ws) && AllSteady(ws)
    ensures !AnyLoose(ws) && Sent(Variables(ws)) == Variables(NotOwn(ws))
  {
    hide Loose, Guarded, Steady, Unescape, Kept;
    if ws != [] {
      SteadyIs(ws[0].text);
      SteadyAreTight(ws[1..]);
      assert Variables(ws)[1..] == Variables(ws[1..]);
      var tail, sent := NotOwn(ws[1..]), Sent(Variables(ws[1..]));
      if StartsWith(ws[0].key, PBS_O_ENV) {
        assert NotOwn(ws) == [] + tail == tail && Sent(Variables(ws)) == [] + sent == sent;
      } else {
        assert NotOwn(ws) == [ws[0]] + tail && NotOwn(ws)[1..] == tail;
        assert Sent(Variables(ws)) == [Entry(ws[0].key, Unescape(ws[0].text))] + sent;
      }
      assert forall i :: 0 < i < |ws| ==> ws[i] == ws[1..][i - 1];
    }
  }

  lemma {:induction false} DropLength(v: string)
    ensures |EscCommas(DropNewlines(v))| + |v| == |EscCommas(v)| + |DropNewlines(v)|
    decreases |v|
  {
    if v != "" {
      var n := if v[0] == ';' && At(v, 1) == '\n' then 2 else 1;
      DropLength(v[n..]);
      assert DropNewlines(v)[1..] == DropNewlines(v[n..]);
      if n == 2 {
        assert v[1..][1..] == v[2..];
      }
    }
  }

  /** A newline that goes makes the list shorter. */
  lemma {:induction false} SentLength(ws: seq<Written>)
    requires NoneOwn(ws) && AllGuarded(ws) && !AnyLoose(ws)
    ensures |Tail(Sent(Variables(ws)))| <= |Tail(Variables(ws))|
    ensures |Tail(Sent(Variables(ws)))| == |Tail(Variables(ws))| ==> AllSteady(ws)
  {
    hide Loose, Guarded, Steady, Unescape;
    if ws != [] {
      var v := Unescape(ws[0].text);
      SteadyIs(ws[0].text);
      DropLength(v);
      KeptAll(v);
      DropNothing(v);
      hide Kept, EscCommas, DropNewlines, HasPair;
      assert forall i :: 0 < i < |ws| ==> ws[i] == ws[1..][i - 1];
      SentLength(ws[1..]);
      assert Variables(ws)[1..] == Variables(ws[1..]);
      assert Sent(Variables(ws))[1..] == Sent(Variables(ws[1..]));
    }
  }

  /**
   * set_job_env leaves a list that expand_varlist has written as it is, but for the names of qsub's own, if all of its
   * texts are steady. If none of the names is qsub's own, only if.
   */
  lemma {:induction false} SecondPass(ws: seq<Written>, env: Env, acc: string)
    requires PlainNames(ws) && AllGuarded(ws)
    ensures AllSteady(ws) ==> Walk(List(ws), env, false, acc) == Built(acc + Lines(NotOwn(ws)))
    ensures NoneOwn(ws) ==> (Walk(List(ws), env, false, acc) == Built(acc + Lines(ws)) <==> AllSteady(ws))
  {
    if AnyLoose(ws) {
      if AllSteady(ws) {
        SteadyAreTight(ws);
      }
      if NoneOwn(ws) {
        LooseIsChanged(ws, env, acc);
      }
    } else {
      TightLines(ws);
      WalkEntries(Variables(ws), env, acc);
      if AllSteady(ws) {
        SteadyAreTight(ws);
        NotOwnTight(ws);
        TightLines(NotOwn(ws));
      }
      if NoneOwn(ws) {
        NoneOwnStay(ws);
        SentLength(ws);
        assert |acc + Tail(Sent(Variables(ws)))| == |acc| + |Tail(Sent(Variables(ws)))|;
        assert |acc + Lines(ws)| == |acc| + |Lines(ws)|;
      }
      hide *;
    }
  }

  lemma {:induction false} NotOwnTight(ws: seq<Written>)
    requires PlainNames(ws) && AllGuarded(ws) && !AnyLoose(ws)
    ensures PlainNames(NotOwn(ws)) && AllGuarded(NotOwn(ws)) && !AnyLoose(NotOwn(ws))
  {
    hide Loose, Guarded, PlainName;
    if ws != [] {
      assert forall i :: 0 < i < |ws| ==> ws[i] == ws[1..][i - 1];
      NotOwnTight(ws[1..]);
    }
  }

  lemma {:induction false} NoneOwnStay(ws: seq<Written>)
    requires NoneOwn(ws)
    ensures NotOwn(ws) == ws
  {
    if ws != [] {
      assert forall i :: 0 < i < |ws| ==> ws[i] == ws[1..][i - 1];
      NoneOwnStay(ws[1..]);
    }
  }

  /** The part of each token that is the name. */
  predicate PlainTokens(ts: seq<string>) {
    forall i :: 0 <= i < |ts| ==> PlainName(ts[i][..IndexOf(ts[i], '=')])
  }

  lemma {:induction false} WrittenNames(ts: seq<string>, env: Env)
    requires PlainTokens(ts)
    ensures WriteAll(ts, env).Some? ==> PlainNames(WriteAll(ts, env).value)
  {
    if ts != [] {
      var t := ts[0];
      assert t[..|t|] == t;
      WrittenNames(ts[1..], env);
    }
  }

  /**
   * What becomes of qsub -v: expand_varlist gives up or writes a list, and behind the basic list come its variables as
   * they are written, without qsub's own, if and only if all texts are steady; for a list with names of qsub's own, if.
   */
  lemma {:induction false} JobListIsBuilt(s: string, env: Env, basic: string)
    requires PlainTokens(Tokens(s)) && basic != ""
    ensures var v := ExpandTokens(Tokens(s), env, "");
            match WriteAll(Tokens(s), env)
            case None => v == None
            case Some(ws) =>
              var r := JobEnvOf(basic, "", v, false, env, false);
              && v == Some(List(ws))
              && (AllSteady(ws) ==> r == Built(basic + Lines(NotOwn(ws))))
              && (NoneOwn(ws) ==> (r == Built(basic + Lines(ws)) <==> AllSteady(ws)))
  {
    ExpandWrites(s, env);
    WrittenNames(Tokens(s), env);
    WrittenGuarded(Tokens(s), env);
    match WriteAll(Tokens(s), env)
    case None =>
    case Some(ws) =>
      BuiltByWalk(basic, List(ws), env);
      SecondPass(ws, env, basic);
      hide *;
  }

  lemma {:induction false} BuiltByWalk(basic: string, v: string, env: Env)
    requires basic != ""
    ensures JobEnvOf(basic, "", Some(v), false, env, false) == Walk(v, env, false, basic)
  {
    hide Walk;
    match Walk(v, env, false, basic)
    case Refused(_) =>
    case Built(list) => assert list + "" == list;
  }

  // ----- the server and qstat -----

  lemma {:induction false} RawsAppend(a: seq<Entry>, b: seq<Entry>)
    ensures Raws(a) + Raws(b) == Raws(a + b)
  {
    if a == [] {
      assert a + b == b;
    } else {
      assert (a + b)[1..] == a[1..] + b;
      RawsAppend(a[1..], b);
    }
  }

  /** What the server keeps of a list, and what qstat shows of that and of the variables that the server adds. */
  lemma {:induction false} ListInServer(all: seq<Entry>, extra: seq<Entry>)
    requires all != [] && (forall e <- all :: PlainKey(e.key)) && forall e <- extra :: PlainKey(e.key)
    ensures
      var kept := Decode(Join(all));
      && (kept == Raws(all) <==> AllStorable(all))
      && (kept == Raws(all) && QstatEnv.Split(Encode(kept + Raws(extra))) == Some(QstatEnv.Pairs(all + extra))
          <==> AllStorable(all) && forall e <- all + extra :: Showable(e))
  {
    hide Encode, Decode, Join, Raws, AllStorable, Showable, QstatEnv.Split, QstatEnv.Pairs;
    assert forall e :: PlainKey(e) ==> QstatEnv.CleanKey(e);
    hide PlainKey, QstatEnv.CleanKey;
    ServerKeepsTheList(all);
    RawsAppend(all, extra);
    QstatShowsTheServersList(all + extra);
  }

  lemma {:induction false} PlainVariables(ws: seq<Written>)
    requires PlainNames(ws)
    ensures forall e <- Variables(NotOwn(ws)) :: PlainKey(e.key)
  {
    if ws != [] {
      var n := ws[0].key;
      assert forall i :: 0 <= i < |n| ==> n[i] in n;
      assert forall i :: 0 < i < |ws| ==> ws[i] == ws[1..][i - 1];
      PlainVariables(ws[1..]);
      assert ([ws[0]] + NotOwn(ws[1..]))[1..] == NotOwn(ws[1..]);
      assert [] + NotOwn(ws[1..]) == NotOwn(ws[1..]);
    }
  }

  /** The text that is written for a value found in the environment. */
  lemma {:induction false} FoundIsSteady(v: string)
    ensures var x := Escaped(v, IsFunc(v));
            && (Steady(x, '=', IsFunc(x)) <==> PlainValue(v) && !(IsFunc(v) && HasPair(Kept(v), ';', '\n')))
            && (PlainValue(v) ==> Unescape(x) == Kept(v))
  {
    var x := Escaped(v, IsFunc(v));
    SecondPassIsIdentity("=", v);
    CopyIsIdentity("=", x, IsFunc(x));
    if PlainValue(v) {
      NoPair(v);
      EscapedRecovers(v, IsFunc(v));
    }
    hide Copy, Steady, Escaped, Unescape;
  }

  /**
   * End to end, for a basic list bs and the variables extra that the server adds. If the texts that expand_varlist
   * writes are steady, qsub sends bs and the variables that they stand for, all as one list. The server keeps exactly
   * these if and only if it can keep each, and qstat then shows exactly these and extra if and only if it can show
   * each. For a list without names of qsub's own everything is right if and only if all three conditions hold.
   */
  lemma {:induction false} QstatShowsTheJob(s: string, env: Env, bs: seq<Entry>, extra: seq<Entry>)
    requires PlainTokens(Tokens(s)) && WriteAll(Tokens(s), env).Some?
    requires bs != [] && (forall b <- bs :: PlainKey(b.key)) && forall e <- extra :: PlainKey(e.key)
    ensures var ws := WriteAll(Tokens(s), env).value;
            var all := bs + Variables(NotOwn(ws));
            var sent := JobEnvOf(Join(bs), "", ExpandTokens(Tokens(s), env, ""), false, env, false);
            var kept := Decode(Join(all));
            var shown := QstatEnv.Split(Encode(kept + Raws(extra)));
            && (AllSteady(ws) ==> sent == Built(Join(all)))
            && (kept == Raws(all) <==> AllStorable(all))
            && (kept == Raws(all) && shown == Some(QstatEnv.Pairs(all + extra))
                <==> AllStorable(all) && forall e <- all + extra :: Showable(e))
            && (NoneOwn(ws) ==>
                  (sent == Built(Join(bs) + Lines(ws)) && kept == Raws(all) &&
                   shown == Some(QstatEnv.Pairs(all + extra))
                   <==> AllSteady(ws) && AllStorable(all) && forall e <- all + extra :: Showable(e)))
  {
    var ws := WriteAll(Tokens(s), env).value;
    var own := NotOwn(ws);
    var all := bs + Variables(own);
    JoinEnds(bs);
    WrittenNames(Tokens(s), env);
    WrittenGuarded(Tokens(s), env);
    PlainVariables(ws);
    if AllSteady(ws) {
      SteadyAreTight(ws);
      NotOwnTight(ws);
      TightLines(own);
      JoinAppend(bs, Variables(own));
    }
    hide *;
    JobListIsBuilt(s, env, Join(bs));
    ListInServer(all, extra);
  }
}
