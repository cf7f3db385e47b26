/** qsub -V: the whole environment as one list (src/cmds/qsub.c:4019-4073), and reading it back. */
module EnvExport {
  import opened CText
  import opened EnvText

  datatype Variable = Variable(name: string, value: string) {
    function Text(): string {
      name + "=" + value
    }

    function EscapedText(): string {
      name + "=" + Escaped(value, IsFunc(value))
    }

    /** No character of the name is special to comma_token. */
    predicate CleanName() {
      Clean(name)
    }

    /** No backslash directly in front of a comma, and no newline that a shell function loses. */
    predicate Recoverable() {
      Survives(value)
    }
  }

  predicate Survives(value: string) {
    !HasPair(value, ESC, ',') && !(IsFunc(value) && HasPair(value, ';', '\n'))
  }

  /** The variable that an environment string name=value holds. */
  function Parse(e: string): Variable
    requires '=' in e
  {
    var k := IndexOf(e, '=');
    if k < |e| then Variable(e[..k], e[k + 1..]) else Variable(e, "")
  }

  /** The variables that are sent: up to the first empty string, without those that qsub makes itself. */
  function Exported(envp: seq<string>): seq<Variable>
    requires forall e <- envp :: e == "" || '=' in e
  {
    if envp == [] || envp[0] == "" then []
    else
      var v := Parse(envp[0]);
      (if StartsWith(v.name, PBS_O_ENV) then [] else [v]) + Exported(envp[1..])
  }

  function Varlist(vs: seq<Variable>): string {
    if vs == [] then "" else "," + vs[0].EscapedText() + Varlist(vs[1..])
  }

  method EnvArrayToVarlist(envp: seq<string>) returns (jobEnv: string)
    requires forall e <- envp :: e == "" || '=' in e
    ensures jobEnv == Varlist(Exported(envp))
  {
    hide Exported, Varlist, StartsWith;
    jobEnv := "";
    var i := 0;
    while i < |envp| && envp[i] != ""
      invariant i <= |envp|
      invariant jobEnv + Varlist(Exported(envp[i..])) == Varlist(Exported(envp))
    {
      var e := envp[i];
      assert e in envp;
      var s := 0;
      while s < |e| && e[s] != '='
        invariant s <= |e| && '=' !in e[..s]
      {
        s := s + 1;
      }
      ExportedStep(envp, i, s);
      if !StartsWith(e[..s], PBS_O_ENV) {
        jobEnv := AppendVariable(jobEnv, e[..s], e[s + 1..], Exported(envp[i + 1..]));
      } else {
        assert [] + Exported(envp[i + 1..]) == Exported(envp[i + 1..]);
      }
      i := i + 1;
    }
    ExportedEnd(envp, i);
    assert jobEnv + "" == jobEnv;
  }

  lemma {:induction false} ExportedEnd(envp: seq<string>, i: nat)
    requires (forall e <- envp :: e == "" || '=' in e) && i <= |envp| && (i < |envp| ==> envp[i] == "")
    ensures Varlist(Exported(envp[i..])) == ""
  {
  }

  /** An environment string whose first '=' is at s. */
  lemma {:induction false} ExportedStep(envp: seq<string>, i: nat, s: nat)
    requires (forall e <- envp :: e == "" || '=' in e) && i < |envp| && envp[i] != ""
    requires s <= |envp[i]| && '=' !in envp[i][..s] && (s < |envp[i]| ==> envp[i][s] == '=')
    ensures s < |envp[i]|
    ensures Exported(envp[i..]) ==
            (if StartsWith(envp[i][..s], PBS_O_ENV) then [] else [Variable(envp[i][..s], envp[i][s + 1..])])
             + Exported(envp[i + 1..])
  {
    assert envp[i] in envp;
    FirstIsUnique(envp[i], '=', s);
    assert envp[i..][0] == envp[i] && envp[i..][1..] == envp[i + 1..];
  }

  /** Puts a comma, the name and the escaped value behind the list. */
  method AppendVariable(jobEnv: string, name: string, value: string, ghost vs: seq<Variable>) returns (out: string)
    ensures out + Varlist(vs) == jobEnv + Varlist([Variable(name, value)] + vs)
  {
    var dest := jobEnv + "," + name + "=";
    CopyGlobal(dest, value, IsFunc(value));
    var rest, ok;
    out, rest, ok := CopyEnvValue(dest, value, true);
    Appended(jobEnv, Variable(name, value), vs);
  }

  lemma {:induction false} FirstIsUnique(e: string, c: char, s: nat)
    requires s <= |e| && c !in e[..s] && c in e && (s < |e| ==> e[s] == c)
    ensures s < |e| && IndexOf(e, c) == s
  {
    assert e == e[..s] + e[s..];
    assert e[s..] == [c] + e[s + 1..];
    assert e == e[..s] + [c] + e[s + 1..];
    IndexOfFirst(e[..s], c, e[s + 1..]);
  }

  lemma {:induction false} Appended(was: string, v: Variable, vs: seq<Variable>)
    ensures was + "," + v.name + "=" + Escaped(v.value, IsFunc(v.value)) + Varlist(vs) == was + Varlist([v] + vs)
  {
    assert ([v] + vs)[1..] == vs;
    assert Varlist([v] + vs) == "," + v.EscapedText() + Varlist(vs);
  }

  // ----- reading the list back -----

  function Texts(vs: seq<Variable>): seq<string> {
    if vs == [] then [] else [vs[0].Text()] + Texts(vs[1..])
  }

  /** The tokens with their escaping backslashes dropped. */
  function UnescapeAll(ts: seq<string>): seq<string> {
    if ts == [] then [] else [Unescape(ts[0])] + UnescapeAll(ts[1..])
  }

  /** The token that an escaped value starts, when another entry or nothing follows it. */
  lemma {:induction false} ValueToken(value: string, t: string)
    requires AtEnd(t)
    ensures var e := Escaped(value, IsFunc(value)) + t;
            var k := TokenEnd(e, NUL);
            && (Unescape(e[..k]) == value <==> Survives(value))
            && (Survives(value) ==> k == |Escaped(value, IsFunc(value))|)
  {
    var fn := IsFunc(value);
    if HasPair(value, ESC, ',') {
      EscapedIsCut(value, fn, t);
    } else {
      EscapedIsOneToken(value, fn, t);
      EscapedRecovers(value, fn);
      KeptAll(value);
      assert (Escaped(value, fn) + t)[..|Escaped(value, fn)|] == Escaped(value, fn);
    }
  }

  /** The first token of an entry that is followed by another entry or by nothing. */
  lemma {:induction false} FirstToken(v: Variable, t: string)
    requires v.CleanName() && AtEnd(t)
    ensures var s := v.EscapedText() + t;
            var k := TokenEnd(s, NUL);
            && (Unescape(s[..k]) == v.Text() <==> v.Recoverable())
            && (v.Recoverable() ==> k == |v.EscapedText()|)
  {
    hide TokenEnd, Unescape, HasPair, Escaped;
    var x := v.name + "=";
    var e := Escaped(v.value, IsFunc(v.value)) + t;
    assert v.EscapedText() + t == x + e;
    CleanPrefix(x, e);
    ValueToken(v.value, t);
    var k := TokenEnd(e, NUL);
    assert (x + e)[..|x| + k] == x + e[..k];
    CleanPrefix(x, e[..k]);
    SamePrefix(x, Unescape(e[..k]), v.value);
  }

  lemma {:induction false} SamePrefix(x: string, a: string, b: string)
    ensures x + a == x + b <==> a == b
  {
    assert (x + a)[|x|..] == a && (x + b)[|x|..] == b;
  }

  /** The text of a list, from its first entry on. */
  function Body(vs: seq<Variable>): string
    requires vs != []
  {
    vs[0].EscapedText() + Varlist(vs[1..])
  }

  lemma {:induction false} TokensStep(vs: seq<Variable>)
    requires vs != [] && vs[0].CleanName() && vs[0].Recoverable()
    ensures Tokens(Body(vs)) == [vs[0].EscapedText()] + if |vs| == 1 then [] else Tokens(Body(vs[1..]))
    ensures Unescape(vs[0].EscapedText()) == vs[0].Text()
  {
    hide TokenEnd, Unescape, Tokens, HasPair, Escaped, IsFunc;
    var x, y := vs[0].EscapedText(), Varlist(vs[1..]);
    FirstToken(vs[0], y);
    assert (x + y)[..|x|] == x;
    TokensUnfold(x, y);
    if |vs| > 1 {
      assert y[1..] == Body(vs[1..]);
    }
  }

  lemma {:induction false} BodyCut(vs: seq<Variable>)
    requires vs != [] && vs[0].CleanName() && !vs[0].Recoverable()
    ensures UnescapeAll(Tokens(Body(vs))) != Texts(vs)
  {
    FirstToken(vs[0], Varlist(vs[1..]));
    assert UnescapeAll(Tokens(Body(vs)))[0] == Unescape(Body(vs)[..TokenEnd(Body(vs), NUL)]);
  }

  lemma {:induction false} SameHead(x: string, a: seq<string>, b: seq<string>)
    ensures [x] + a == [x] + b <==> a == b
  {
    assert ([x] + a)[1..] == a && ([x] + b)[1..] == b;
  }

  lemma {:induction false} UnescapeAllHead(x: string, ts: seq<string>)
    ensures UnescapeAll([x] + ts) == [Unescape(x)] + UnescapeAll(ts)
  {
    assert ([x] + ts)[1..] == ts;
  }

  predicate AllRecoverable(vs: seq<Variable>)
    ensures AllRecoverable(vs) <==> forall v <- vs :: v.Recoverable()
  {
    vs == [] || (vs[0].Recoverable() && AllRecoverable(vs[1..]))
  }

  lemma {:induction false} BodyRecoverable(vs: seq<Variable>)
    requires vs != [] && forall v <- vs :: v.CleanName()
    ensures UnescapeAll(Tokens(Body(vs))) == Texts(vs) <==> AllRecoverable(vs)
  {
    if !vs[0].Recoverable() {
      BodyCut(vs);
    } else {
      TokensStep(vs);
      var rest := if |vs| == 1 then [] else Tokens(Body(vs[1..]));
      if |vs| > 1 {
        BodyRecoverable(vs[1..]);
      }
      UnescapeAllHead(vs[0].EscapedText(), rest);
      SameHead(vs[0].Text(), UnescapeAll(rest), Texts(vs[1..]));
    }
  }

  /**
   * -V is recoverable. For variable names that comma_token does not find special, tokenizing the list
   * gives an empty token and then exactly the variables, in order and with their values, if and only if no
   * value contains a backslash-comma pair and no exported shell function has a newline after a semicolon.
   */
  lemma {:induction false} ExportRecoverable(vs: seq<Variable>)
    requires vs != [] && forall v <- vs :: v.CleanName()
    ensures UnescapeAll(Tokens(Varlist(vs))) == [""] + Texts(vs) <==> forall v <- vs :: v.Recoverable()
  {
    LeadingToken(vs);
    hide Tokens, Varlist, Body;
    BodyRecoverable(vs);
    UnescapeAllHead("", Tokens(Body(vs)));
    SameHead("", UnescapeAll(Tokens(Body(vs))), Texts(vs));
  }

  lemma {:induction false} LeadingToken(vs: seq<Variable>)
    requires vs != []
    ensures Tokens(Varlist(vs)) == [""] + Tokens(Body(vs))
  {
    var t := Varlist(vs);
    assert t == "," + Body(vs);
    hide TokenEnd, Tokens, Varlist, Body;
    TokenAtEnd(t);
    assert "" + t == t && t[1..] == Body(vs);
    TokensUnfold("", t);
  }

  /** An environment without variables to send, and only such a one, gives a list without tokens. */
  lemma {:induction false} NothingExported(envp: seq<string>)
    requires forall e <- envp :: e == "" || '=' in e
    ensures Tokens(Varlist(Exported(envp))) == [] <==> Exported(envp) == []
  {
  }

  /** A=x\, for example is sent as A=x\\, and does not come back. */
  lemma {:induction false} BackslashCommaIsLost()
    ensures Escaped("x\\,", false) == "x\\\\,"
    ensures UnescapeAll(Tokens(Varlist([Variable("A", "x\\,")]))) != ["", "A=x\\,"]
  {
    hide TokenEnd, Tokens, UnescapeAll, Varlist;
    assert Escaped(",", false) == [ESC, ','] + Escaped("", false);
    assert Escaped("\\,", false) == [ESC] + Escaped(",", false);
    NotRecoverable();
    ExportRecoverable([Variable("A", "x\\,")]);
  }

  lemma {:induction false} NotRecoverable()
    ensures var v := Variable("A", "x\\,");
            v.CleanName() && !v.Recoverable() && v in [v] && [""] + Texts([v]) == ["", "A=x\\,"]
  {
    hide Escaped;
    var v := Variable("A", "x\\,");
    assert HasPair("x\\,"[1..], ESC, ',');
    assert [v][1..] == [];
    assert Texts([v]) == [v.Text()];
    assert v.Text() == "A=x\\,";
  }
}
