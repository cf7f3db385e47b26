/**
 * qsub -V: the variable list of the job, as tokens (src/cmds/qsub.c:379-419, 4019-4073, 4092-4219): what qsub builds
 * itself, what -v names, and the whole environment.
 */
module WholeEnv {
  import opened CText
  import opened EnvText
  import opened EnvExport
  import opened JobEnv
  import VariableList
  import opened JobList

  /** s ends inside a token: outside quotes, not behind a backslash that escapes nothing, and not behind a comma that
      ends a token. */
  predicate Ends(s: string, quote: char) {
    if s == "" then quote == NUL
    else if IsQuote(s[0]) then Ends(s[1..], if s[0] == quote then NUL else s[0])
    else if s[0] == ESC then |s| > 1 && Ends(s[2..], quote)
    else Ends(s[1..], quote) && !(s == "," && quote == NUL)
  }

  /** One turn of the scan in front of the comma that ends the token: how far it goes, and the quote behind it. */
  function Turn(s: string, quote: char): (r: (nat, char))
    requires s != ""
    ensures 0 < r.0 <= |s|
  {
    if IsQuote(s[0]) then (1, if s[0] == quote then NUL else s[0])
    else if s[0] == ESC && |s| > 1 then (2, quote)
    else (1, quote)
  }

  lemma {:induction false} TurnEnd(s: string, quote: char)
    requires s != "" && !(s[0] == ',' && quote == NUL)
    ensures var (n, q) := Turn(s, quote); TokenEnd(s, quote) == n + TokenEnd(s[n..], q)
  {
    assert IsQuote(s[0]) ==> s[0] != ',';
  }

  lemma {:induction false} TurnEnds(s: string, quote: char)
    requires s != "" && !(s[0] == ',' && quote == NUL) && s != [ESC]
    ensures var (n, q) := Turn(s, quote); Ends(s, quote) <==> Ends(s[n..], q)
  {
  }

  lemma {:induction false} TurnFurther(b: string, z: string, quote: char)
    requires b != "" && b != [ESC]
    ensures var (n, q) := Turn(b, quote); Turn(b + z, quote) == (n, q) && (b + z)[n..] == b[n..] + z
  {
    assert (b + z)[0] == b[0];
  }

  /** What follows does not change the first token when a comma ends it. */
  lemma {:induction false} TokenBefore(b: string, z: string, quote: char)
    requires TokenEnd(b, quote) < |b|
    ensures TokenEnd(b + z, quote) == TokenEnd(b, quote)
    ensures Ends(b, quote) <==> b[TokenEnd(b, quote) + 1..] != "" && Ends(b[TokenEnd(b, quote) + 1..], NUL)
    decreases |b|
  {
    assert (b + z)[0] == b[0];
    if b[0] == ',' && quote == NUL {
      assert b[0 + 1..] == b[1..];
    } else {
      assert TokenEnd([ESC], quote) == 1;
      TurnEnd(b, quote);
      TurnEnds(b, quote);
      TurnEnd(b + z, quote);
      TurnFurther(b, z, quote);
      hide *;
      var (n, q) := Turn(b, quote);
      TokenBefore(b[n..], z, q);
      assert b[n..][TokenEnd(b[n..], q) + 1..] == b[TokenEnd(b, quote) + 1..];
    }
  }

  lemma {:induction false} TokenAll(b: string, y: string, quote: char)
    requires TokenEnd(b, quote) == |b|
    ensures TokenEnd(b + "," + y, quote) >= |b|
    ensures TokenEnd(b + "," + y, quote) == |b| <==> Ends(b, quote)
    decreases |b|
  {
    var s := b + "," + y;
    if b == "" {
      assert s[0] == ',';
    } else if IsQuote(b[0]) {
      assert s[1..] == b[1..] + "," + y;
      TokenAll(b[1..], y, if b[0] == quote then NUL else b[0]);
    } else if b[0] == ESC && |b| > 1 {
      assert s[2..] == b[2..] + "," + y;
      TokenAll(b[2..], y, quote);
    } else if b[0] == ESC {
      assert |s| > 1;
    } else {
      assert s[1..] == b[1..] + "," + y;
      TokenAll(b[1..], y, quote);
    }
  }

  /** The first tokens are not the ones in bs, or an empty one follows them. */
  predicate Apart(ts: seq<string>, bs: seq<string>) {
    |bs| <= |ts| && (ts[..|bs|] != bs || (|bs| < |ts| && ts[|bs|] == ""))
  }

  lemma {:induction false} ApartHead(x: string, ts: seq<string>, bs: seq<string>)
    requires Apart(ts, bs)
    ensures Apart([x] + ts, [x] + bs)
  {
    assert ([x] + ts)[..|bs| + 1] == [x] + ts[..|bs|];
    assert ([x] + bs)[1..] == bs && ([x] + ts[..|bs|])[1..] == ts[..|bs|];
  }

  lemma {:induction false} CutFirst(b: string, y: string, k: nat)
    requires k < |b| && k == TokenEnd(b, NUL)
    ensures var x, rest := b[..k], b[k + 1..];
            && Tokens(b) == [x] + Tokens(rest) && Tokens(b + "," + y) == [x] + Tokens(rest + "," + y)
            && (Ends(b, NUL) <==> rest != "" && Ends(rest, NUL))
  {
    TokenBefore(b, "," + y, NUL);
    var s, rest := b + "," + y, b[k + 1..];
    assert b + ("," + y) == s;
    hide TokenEnd, Ends;
    assert s[..k] == b[..k] && s[k + 1..] == rest + "," + y;
    NoTokens();
  }

  lemma {:induction false} JoinMore(x: string, ts: seq<string>, bs: seq<string>, ys: seq<string>, ends: bool)
    requires if ends then ts == bs + ys else Apart(ts, bs)
    ensures if ends then [x] + ts == [x] + bs + ys else Apart([x] + ts, [x] + bs)
  {
    if !ends {
      ApartHead(x, ts, bs);
    }
  }

  /** What stands behind a comma is cut into tokens of its own if and only if the text in front ends inside a token. */
  lemma {:induction false} TokensJoin(b: string, y: string)
    requires b != "" && y != ""
    ensures if Ends(b, NUL) then Tokens(b + "," + y) == Tokens(b) + Tokens(y)
            else Apart(Tokens(b + "," + y), Tokens(b))
    decreases |b|
  {
    var k := TokenEnd(b, NUL);
    if k == |b| {
      TokenAll(b, y, NUL);
      WholeTokens(b, y);
      hide Tokens, TokenEnd, Ends;
    } else {
      var rest := b[k + 1..];
      CutFirst(b, y, k);
      hide Tokens, TokenEnd, Ends, Apart;
      if rest == "" {
        LastCut(b[..k], y);
      } else {
        TokensJoin(rest, y);
        JoinMore(b[..k], Tokens(rest + "," + y), Tokens(rest), Tokens(y), Ends(rest, NUL));
      }
    }
  }

  lemma {:induction false} LastCut(x: string, y: string)
    requires y != ""
    ensures Apart([x] + Tokens("" + "," + y), [x] + Tokens(""))
  {
    assert "" + "," + y == "," + y;
    EmptyToken(y);
    NoTokens();
    hide Tokens;
    assert ([x] + ([""] + Tokens(y)))[..1] == [x];
  }

  /** b is one token. */
  lemma {:induction false} WholeTokens(b: string, y: string)
    requires b != "" && y != "" && TokenEnd(b, NUL) == |b|
    requires TokenEnd(b + "," + y, NUL) >= |b|
    ensures Tokens(b) == [b]
    ensures TokenEnd(b + "," + y, NUL) == |b| ==> Tokens(b + "," + y) == [b] + Tokens(y)
    ensures TokenEnd(b + "," + y, NUL) != |b| ==>
              |Tokens(b + "," + y)| > 0 && Tokens(b + "," + y)[..1] != [b]
  {
    hide TokenEnd;
    var s := b + "," + y;
    assert b[..|b|] == b;
    assert s[..|b|] == b && s[|b| + 1..] == y;
  }

  lemma {:induction false} EmptyToken(y: string)
    requires y != ""
    ensures Tokens("," + y) == [""] + Tokens(y)
  {
    assert ("," + y)[..0] == "" && ("," + y)[0 + 1..] == y;
  }

  // ----- the list of the job -----

  function LineTexts(ws: seq<Written>): (r: seq<string>)
    ensures |r| == |ws| && forall i :: 0 <= i < |r| ==> r[i] == ws[i].Line()
  {
    if ws == [] then [] else [ws[0].Line()] + LineTexts(ws[1..])
  }

  lemma {:induction false} LineToken(w: Written, t: string)
    requires VariableList.PlainName(w.key) && Guarded(w.text) && Steady(w.text, '=', IsFunc(w.text)) && AtEnd(t)
    ensures TokenEnd(w.Line() + t, NUL) == |w.Line()|
  {
    SteadyIs(w.text);
    TightIsEscaped(w.text);
    var i := VariableList.Item(w.key, Some(Unescape(w.text)));
    assert w.Line() == i.Text();
    VariableList.ItemToken(i, t);
  }

  predicate LinesFit(ws: seq<Written>) {
    PlainNames(ws) && AllGuarded(ws) && AllSteady(ws)
  }

  /** A list behind a line begins with a comma. */
  lemma {:induction false} LinesAre(ws: seq<Written>)
    requires ws != []
    ensures Lines(ws) == "," + List(ws) && List(ws) == ws[0].Line() + Lines(ws[1..]) && Lines([]) == ""
    ensures ws[0].Line() != ""
  {
  }

  lemma {:induction false} VarlistIs(vs: seq<Variable>)
    requires vs != []
    ensures Varlist(vs) == "," + Body(vs) && Varlist([]) == ""
  {
  }

  lemma {:induction false} ListFirstLine(ws: seq<Written>, vs: seq<Variable>)
    requires ws != []
    ensures var y := Lines(ws[1..]) + Varlist(vs);
            && List(ws) + Varlist(vs) == ws[0].Line() + y && ws[0].Line() != "" && AtEnd(y)
            && (y == "" <==> |ws| == 1 && vs == [])
            && (|ws| > 1 ==> y[1..] == List(ws[1..]) + Varlist(vs))
            && (|ws| == 1 && vs != [] ==> y[1..] == Body(vs))
  {
    LinesAre(ws);
    if |ws| > 1 {
      LinesAre(ws[1..]);
    }
    if vs != [] {
      VarlistIs(vs);
    } else {
      assert Varlist(vs) == "";
    }
    hide Variable.EscapedText, Written.Line, Lines, List, Varlist, Body;
  }

  lemma {:induction false} LinesFitRest(ws: seq<Written>)
    requires ws != [] && LinesFit(ws)
    ensures LinesFit(ws[1..]) && LineTexts(ws) == [ws[0].Line()] + LineTexts(ws[1..])
    ensures VariableList.PlainName(ws[0].key) && Guarded(ws[0].text)
    ensures Steady(ws[0].text, '=', IsFunc(ws[0].text)) && LineTexts([]) == []
  {
    hide VariableList.PlainName, Guarded, Steady, Written.Line;
    assert forall i :: 0 <= i < |ws| - 1 ==> ws[1..][i] == ws[i + 1];
  }

  lemma {:induction false} ListTokens(ws: seq<Written>, vs: seq<Variable>)
    requires ws != [] && LinesFit(ws)
    ensures Tokens(List(ws) + Varlist(vs)) == LineTexts(ws) + if vs == [] then [] else Tokens(Body(vs))
    decreases |ws|
  {
    hide *;
    var rest := ws[1..];
    var y := Lines(rest) + Varlist(vs);
    LinesFitRest(ws);
    ListFirstLine(ws, vs);
    LineToken(ws[0], y);
    TokensUnfold(ws[0].Line(), y);
    if rest != [] {
      ListTokens(rest, vs);
    }
  }

  /** ts are the tokens bs, then those in ls, and then one for each of the variables, which it stands for. */
  predicate Listed(ts: seq<string>, bs: seq<string>, ls: seq<string>, vs: seq<Variable>) {
    var n, m := |bs|, |bs| + |ls|;
    m <= |ts| && ts[..n] == bs && ts[n..m] == ls && UnescapeAll(ts[m..]) == Texts(vs)
  }

  lemma {:induction false} ListedNext(ts: seq<string>, bs: seq<string>, ws: seq<Written>, vs: seq<Variable>)
    requires Listed(ts, bs, LineTexts(ws), vs) && (ws != [] || vs != [])
    ensures |bs| < |ts| && ts[|bs|] != ""
  {
    var n := |bs|;
    if ws != [] {
      assert ts[n..n + |ws|][0] == LineTexts(ws)[0];
      assert |ws[0].Line()| > 0;
    } else {
      assert Texts(vs)[0] == vs[0].Text() && |vs[0].Text()| > 0;
      assert UnescapeAll(ts[n..])[0] == Unescape(ts[n]);
    }
  }

  lemma {:induction false} ListedApart(ts: seq<string>, bs: seq<string>, ws: seq<Written>, vs: seq<Variable>)
    requires Apart(ts, bs) && (ws != [] || vs != [])
    ensures !Listed(ts, bs, LineTexts(ws), vs)
  {
    if Listed(ts, bs, LineTexts(ws), vs) {
      ListedNext(ts, bs, ws, vs);
    }
  }

  lemma {:induction false} ListedJoined(bs: seq<string>, ls: seq<string>, us: seq<string>, vs: seq<Variable>)
    ensures Listed(bs + (ls + us), bs, ls, vs) <==> UnescapeAll(us) == Texts(vs)
  {
    var ts, n, m := bs + (ls + us), |bs|, |bs| + |ls|;
    assert ts[..n] == bs && ts[n..m] == ls && ts[m..] == us;
  }

  lemma {:induction false} ListBehind(basic: string, ws: seq<Written>, vs: seq<Variable>)
    requires ws != [] || vs != []
    ensures basic + Lines(ws) + Varlist(vs) ==
            basic + "," + if ws != [] then List(ws) + Varlist(vs) else Body(vs)
    ensures (if ws != [] then List(ws) + Varlist(vs) else Body(vs)) != ""
  {
    if ws != [] {
      LinesAre(ws);
    } else {
      VarlistIs(vs);
      BodyNotEmpty(vs);
      assert Lines(ws) == "" && basic + "" == basic;
    }
    hide *;
    if ws != [] {
      assert basic + ("," + List(ws)) + Varlist(vs) == basic + "," + (List(ws) + Varlist(vs));
    } else {
      assert basic + ("," + Body(vs)) == basic + "," + Body(vs);
    }
  }

  lemma {:induction false} BodyNotEmpty(vs: seq<Variable>)
    requires vs != []
    ensures Body(vs) != ""
  {
    assert |vs[0].EscapedText()| > 0;
  }

  /** The list of a job holds the tokens of the basic list, those of -v and one for each exported variable, if and only
      if the basic list ends inside a token, when anything follows it, and each variable can be recovered. */
  lemma {:induction false} JobTokens(basic: string, ws: seq<Written>, vs: seq<Variable>)
    requires basic != "" && LinesFit(ws) && forall v <- vs :: v.CleanName()
    ensures Listed(Tokens(basic + Lines(ws) + Varlist(vs)), Tokens(basic), LineTexts(ws), vs) <==>
            ((ws == [] && vs == []) || Ends(basic, NUL)) && forall v <- vs :: v.Recoverable()
  {
    var us := if vs == [] then [] else Tokens(Body(vs));
    var bs := Tokens(basic);
    if ws == [] && vs == [] {
      NothingListed(basic);
    } else {
      var y := if ws != [] then List(ws) + Varlist(vs) else Body(vs);
      ListBehind(basic, ws, vs);
      if ws != [] {
        ListTokens(ws, vs);
      }
      assert ws == [] ==> LineTexts(ws) == [] && [] + us == us;
      TokensJoin(basic, y);
      if vs != [] {
        BodyRecoverable(vs);
      }
      assert vs == [] ==> UnescapeAll(us) == [] && Texts(vs) == [];
      hide *;
      if Ends(basic, NUL) {
        ListedJoined(bs, LineTexts(ws), us, vs);
      } else {
        ListedApart(Tokens(basic + "," + y), bs, ws, vs);
      }
    }
  }

  lemma {:induction false} NothingListed(basic: string)
    ensures Listed(Tokens(basic + Lines([]) + Varlist([])), Tokens(basic), LineTexts([]), [])
  {
    hide Tokens;
    assert basic + Lines([]) + Varlist([]) == basic;
  }

  // ----- the whole way -----

  /** What -v has to say, in the form in which it is sent; nothing without -v. */
  function Given(v: Option<string>, env: Env): Option<seq<Written>> {
    match v
    case None => Some([])
    case Some(s) => WriteAll(Tokens(s), env)
  }

  lemma {:induction false} GivenFits(v: Option<string>, env: Env)
    requires v.Some? ==> PlainTokens(Tokens(v.value))
    requires Given(v, env).Some? && AllSteady(Given(v, env).value)
    ensures LinesFit(NotOwn(Given(v, env).value)) && PlainNames(Given(v, env).value) && AllGuarded(Given(v, env).value)
  {
    var ws := Given(v, env).value;
    if v.Some? {
      WrittenNames(Tokens(v.value), env);
      WrittenGuarded(Tokens(v.value), env);
    }
    hide Guarded, Steady, VariableList.PlainName;
    NotOwnFit(ws);
  }

  lemma {:induction false} NotOwnFit(ws: seq<Written>)
    requires LinesFit(ws)
    ensures LinesFit(NotOwn(ws))
  {
    hide Guarded, Steady, VariableList.PlainName;
    if ws != [] {
      assert forall i :: 0 < i < |ws| ==> ws[i] == ws[1..][i - 1];
      NotOwnFit(ws[1..]);
    }
  }

  /** String k of the environment is to be sent: no string up to it is empty, and it is not one of qsub's own. */
  predicate Sends(envp: seq<string>, k: nat) {
    k < |envp| && !StartsWith(envp[k], PBS_O_ENV) && forall j :: 0 <= j <= k ==> envp[j] != ""
  }

  lemma {:induction false} SendsOn(envp: seq<string>, k: nat)
    requires envp != [] && envp[0] != ""
    ensures k > 0 ==> (Sends(envp, k) <==> Sends(envp[1..], k - 1))
    ensures Sends(envp, 0) <==> !StartsWith(envp[0], PBS_O_ENV)
  {
    hide StartsWith;
    assert forall j :: 0 < j < |envp| ==> envp[j] == envp[1..][j - 1];
  }

  function Shifted(ks: seq<nat>): (r: seq<nat>)
    ensures |r| == |ks| && forall i :: 0 <= i < |r| ==> r[i] == ks[i] + 1
  {
    if ks == [] then [] else [ks[0] + 1] + Shifted(ks[1..])
  }

  predicate Rising(ks: seq<nat>) {
    forall i, j :: 0 <= i < j < |ks| ==> ks[i] < ks[j]
  }

  /** Each place holds what its variable says. */
  predicate HeldAt(ks: seq<nat>, vs: seq<Variable>, envp: seq<string>) {
    && |ks| == |vs|
    && forall j :: 0 <= j < |ks| ==> ks[j] < |envp| && vs[j].Text() == envp[ks[j]] && '=' !in vs[j].name
  }

  /** The places ks are in order, and hold what the variables say. */
  predicate Places(ks: seq<nat>, vs: seq<Variable>, envp: seq<string>) {
    Rising(ks) && HeldAt(ks, vs, envp)
  }

  lemma {:induction false} RisingOn(ks: seq<nat>)
    requires Rising(ks)
    ensures Rising(Shifted(ks)) && Rising([0] + Shifted(ks))
  {
    var all := Shifted(ks);
    forall i, j | 0 <= i < j < |all|
      ensures all[i] < all[j]
    {
      assert ks[i] < ks[j];
    }
    assert forall i :: 0 < i < |[0] + all| ==> ([0] + all)[i] == all[i - 1] > 0;
  }

  lemma {:induction false} HeldOn(ks: seq<nat>, vs: seq<Variable>, envp: seq<string>)
    requires envp != [] && HeldAt(ks, vs, envp[1..])
    ensures HeldAt(Shifted(ks), vs, envp)
  {
    hide Variable.Text;
    forall j | 0 <= j < |ks|
      ensures Shifted(ks)[j] < |envp| && vs[j].Text() == envp[Shifted(ks)[j]] && '=' !in vs[j].name
    {
      assert envp[1..][ks[j]] == envp[ks[j] + 1];
    }
  }

  lemma {:induction false} HeldFirst(ks: seq<nat>, vs: seq<Variable>, envp: seq<string>, x: Variable)
    requires envp != [] && HeldAt(ks, vs, envp) && x.Text() == envp[0] && '=' !in x.name
    ensures HeldAt([0] + ks, [x] + vs, envp)
  {
    hide Variable.Text;
    assert forall j :: 0 < j < |ks| + 1 ==> ([0] + ks)[j] == ks[j - 1] && ([x] + vs)[j] == vs[j - 1];
  }

  /** The places one further on, behind that of the first variable. */
  lemma {:induction false} PlacesOn(ks: seq<nat>, vs: seq<Variable>, envp: seq<string>, first: seq<Variable>)
    requires envp != [] && Places(ks, vs, envp[1..])
    requires |first| <= 1 && forall x <- first :: x.Text() == envp[0] && '=' !in x.name
    ensures Places((if first == [] then [] else [0]) + Shifted(ks), first + vs, envp)
  {
    RisingOn(ks);
    HeldOn(ks, vs, envp);
    if first == [] {
      assert [] + Shifted(ks) == Shifted(ks) && first + vs == vs;
    } else {
      assert first[0] in first && first == [first[0]];
      HeldFirst(Shifted(ks), vs, envp, first[0]);
    }
    hide Rising, HeldAt, Shifted, Variable.Text;
  }

  /** The exported variables stand for the strings to be sent, one each and in their order; ks are their places. */
  lemma {:induction false} ExportedAre(envp: seq<string>) returns (ks: seq<nat>)
    requires forall e <- envp :: e == "" || '=' in e
    ensures Places(ks, Exported(envp), envp)
    ensures forall k: nat :: k in ks <==> Sends(envp, k)
  {
    ks := [];
    if envp != [] && envp[0] != "" {
      assert envp[0] in envp && forall e <- envp[1..] :: e in envp;
      ParsedIs(envp[0]);
      var first := if StartsWith(Parse(envp[0]).name, PBS_O_ENV) then [] else [Parse(envp[0])];
      assert Exported(envp) == first + Exported(envp[1..]);
      hide StartsWith, Exported, Parse, Places, Sends, Variable.Text;
      var more := ExportedAre(envp[1..]);
      PlacesOn(more, Exported(envp[1..]), envp, first);
      ks := (if first == [] then [] else [0]) + Shifted(more);
      forall k: nat
        ensures k in ks <==> Sends(envp, k)
      {
        SendsOn(envp, k);
        InShifted(more, k);
      }
    }
  }

  lemma {:induction false} InShifted(ks: seq<nat>, k: nat)
    ensures k in Shifted(ks) <==> k > 0 && k - 1 in ks
  {
    if ks != [] {
      InShifted(ks[1..], k);
      assert ks == [ks[0]] + ks[1..];
    }
  }

  lemma {:induction false} ParsedIs(e: string)
    requires '=' in e
    ensures Parse(e).Text() == e && '=' !in Parse(e).name
    ensures StartsWith(Parse(e).name, PBS_O_ENV) <==> StartsWith(e, PBS_O_ENV)
  {
    var k := IndexOf(e, '=');
    hide IndexOf;
    assert e[..|e|] == e;
    assert e == e[..k] + ("=" + e[k + 1..]);
    NameStarts(e[..k], e[k + 1..], PBS_O_ENV);
  }

  lemma {:induction false} NameStarts(n: string, x: string, p: string)
    requires '=' !in p
    ensures p <= n + ("=" + x) <==> p <= n
  {
    if |n| < |p| {
      assert p[|n|] in p && (n + ("=" + x))[|n|] == '=';
    }
  }

  /** The list that set_job_env stores. */
  lemma {:induction false} BuiltIs(basic: string, v: Option<string>, vs: seq<Variable>, whole: bool, env: Env)
    requires basic != "" && (v.Some? ==> PlainTokens(Tokens(v.value))) && (!whole ==> vs == [])
    requires Given(v, env).Some? && AllSteady(Given(v, env).value)
    ensures
      var ws := Given(v, env).value;
      var text := if v.None? then None else Some(List(ws));
      JobEnvOf(basic, Varlist(vs), text, whole, env, false) == Built(basic + Lines(NotOwn(ws)) + Varlist(vs))
  {
    var ws := Given(v, env).value;
    GivenFits(v, env);
    if v.Some? {
      SecondPass(ws, env, basic);
    } else {
      assert Lines(NotOwn(ws)) == "";
      assert basic + "" == basic;
    }
    assert vs == [] ==> Varlist(vs) == "";
    hide Walk, Lines, NotOwn, Varlist, AllSteady;
  }

  /** From the options to the list that is sent, with -V or without and with -v or without. When nothing in the texts of
      -v is left for a second pass, the list holds the tokens of the basic list, those of -v and one for each exported
      variable, if and only if the basic list ends inside a token, when anything follows, and each exported variable can
      be recovered. */
  method BuildVariableList(basic: string, v: Option<string>, whole: bool, envp: seq<string>, env: Env)
      returns (list: string, ok: bool)
    requires v.Some? ==> PlainTokens(Tokens(v.value))
    requires forall e <- envp :: e == "" || '=' in e
    requires whole ==> forall x <- Exported(envp) :: x.CleanName()
    ensures ok ==> basic != "" && Given(v, env).Some?
    ensures basic != "" && Given(v, env).Some? && AllSteady(Given(v, env).value) ==>
              var ws, vs := NotOwn(Given(v, env).value), if whole then Exported(envp) else [];
              ok && (Listed(Tokens(list), Tokens(basic), LineTexts(ws), vs) <==>
                     ((ws == [] && vs == []) || Ends(basic, NUL)) && forall x <- vs :: x.Recoverable())
  {
    var current, vValue := "", None;
    ghost var vs := if whole then Exported(envp) else [];
    assert !whole ==> Varlist(vs) == "" && forall x <- vs :: x.CleanName();
    if v.Some? {
      ExpandWrites(v.value, env);
    }
    if basic != "" && Given(v, env).Some? && AllSteady(Given(v, env).value) {
      BuiltIs(basic, v, vs, whole, env);
      GivenFits(v, env);
      JobTokens(basic, NotOwn(Given(v, env).value), vs);
    }
    hide Exported, Varlist, Tokens, ExpandTokens, WriteAll, List, JobEnvOf, AllSteady, NotOwn, Listed, Ends;
    hide PlainTokens;
    if whole {
      current := EnvArrayToVarlist(envp);
    }
    if v.Some? {
      vValue := ExpandVarlist(v.value, env);
      if vValue.None? {
        return "", false;
      }
    }
    var x11;
    list, ok, x11 := SetJobEnv(basic, current, vValue, whole, env, false);
  }
}
