/** Building the variable list of a job: expand_varlist and set_job_env (src/cmds/qsub.c:507-620, 4076-4218). */
module JobEnv {
  import opened CText
  import opened EnvText

  /** The environment of qsub: getenv. */
  type Env = map<string, string>

  function Sep(acc: string): string {
    if acc == "" then "" else acc + ","
  }

  // ----- expand_varlist -----

  /** What one token adds to the list built so far; None when qsub gives up. */
  function ExpandToken(t: string, env: Env, acc: string): Option<string> {
    var k := IndexOf(t, '=');
    if k < |t| then
      var c := Copy(Sep(acc) + t[..k] + "=", t[k + 1..], NUL, false, IsFunc(t[k + 1..]));
      if c.open then None else Some(c.out)
    else if StartsWith(t, PBS_O_ENV) then Some(acc)
    else if t !in env then None
    else
      var c := Copy(Sep(acc) + t + "=", env[t], NUL, true, IsFunc(env[t]));
      if c.open then None else Some(c.out)
  }

  function ExpandTokens(ts: seq<string>, env: Env, acc: string): Option<string> {
    if ts == [] then Some(acc)
    else match ExpandToken(ts[0], env, acc)
      case None => None
      case Some(a) => ExpandTokens(ts[1..], env, a)
  }

  /** The body of the loop of expand_varlist. */
  method ExpandOne(vn: string, env: Env, acc: string) returns (r: Option<string>)
    ensures r == ExpandToken(vn, env, acc)
  {
    var k := IndexOf(vn, '=');
    if k == |vn| && !StartsWith(vn, PBS_O_ENV) {
      if vn !in env {
        return None;
      }
      var out, rest, ok := CopyEnvValue(Sep(acc) + vn + "=", env[vn], true);
      return if ok then Some(out) else None;
    } else if k < |vn| {
      var out, rest, ok := CopyEnvValue(Sep(acc) + vn[..k] + "=", vn[k + 1..], false);
      return if ok then Some(out) else None;
    }
    r := Some(acc);
  }

  method ExpandVarlist(varlist: string, env: Env) returns (r: Option<string>)
    ensures r == ExpandTokens(Tokens(varlist), env, "")
  {
    hide ExpandToken, Tokens;
    NoTokens();
    r := Some("");
    var tokens := new CommaTokenizer(varlist);
    var p1 := tokens.Next();
    ghost var left := Tokens(varlist);
    while p1.Some?
      invariant fresh(tokens) && tokens.Valid() && r.Some?
      invariant if p1.Some? then left == [p1.value] + Tokens(tokens.Rest()) else left == []
      invariant ExpandTokens(Tokens(varlist), env, "") == ExpandTokens(left, env, r.value)
      decreases p1.Some?, |tokens.Rest()|
    {
      assert left[1..] == Tokens(tokens.Rest());
      r := ExpandOne(p1.value, env, r.value);
      if r.None? {
        return;
      }
      left := left[1..];
      p1 := tokens.Next();
      NoTokens();
    }
  }

  lemma {:induction false} NoTokens()
    ensures Tokens("") == []
  {
  }

  // ----- set_job_env -----

  /** Where the name at the front of c ends: '=' or ',' or the end of the text. */
  function NameEnd(c: string): (k: nat)
    ensures k <= |c|
  {
    if c == "" || c[0] == ',' || c[0] == '=' then 0 else 1 + NameEnd(c[1..])
  }

  /** How set_job_env ends: the list, or FALSE; x11 says that it was refused because of -X with -v DISPLAY. */
  datatype Outcome = Built(list: string) | Refused(x11: bool)

  /** state3: the name is sent with its value in the environment; None when it has none. */
  function WithoutValue(s: string, env: Env, acc: string): Option<string> {
    if StartsWith(s, PBS_O_ENV) then Some(acc)
    else if s !in env then None
    else
      var r := Copy(acc + "," + s + "=", env[s], NUL, true, IsFunc(env[s]));
      if r.open then None else Some(r.out)
  }

  /** state4: the list, the text behind the value, and whether the value has an open quote. */
  function WithValue(s: string, text: string, acc: string): (r: Copied)
    ensures |r.rest| <= |text|
  {
    var r := Copy(acc + "," + s + "=", text, NUL, false, IsFunc(text));
    if !r.open && StartsWith(s, PBS_O_ENV) then r.(out := acc) else r
  }

  /** set_job_env from its initial state on: c is the -v text still to be read. */
  function Walk(c: string, env: Env, forwardX11: bool, acc: string): Outcome
    decreases |c|
  {
    if c == "" then Built(acc)
    else if c[0] == ',' || c[0] == '=' then Refused(false)
    else
      var k := NameEnd(c);
      if k < |c| && c[k] == '=' then
        if forwardX11 && c[..k] == "DISPLAY" then Refused(true)
        else
          var r := WithValue(c[..k], c[k + 1..], acc);
          if r.open then Refused(false) else Walk(r.rest, env, forwardX11, r.out)
      else
        match WithoutValue(c[..k], env, acc)
        case None => Refused(false)
        case Some(list) => Walk(if k < |c| then c[k + 1..] else "", env, forwardX11, list)
  }

  /** The whole of set_job_env, up to the attribute value it stores. v is -v when given, whole says that -V is on. */
  function JobEnvOf(basic: string, current: string, v: Option<string>, whole: bool, env: Env, x11: bool): Outcome {
    if basic == "" then Refused(false)
    else
      match (if v.Some? then Walk(v.value, env, x11, basic) else Built(basic))
      case Refused(d) => Refused(d)
      case Built(list) => Built(list + if whole then current else "")
  }

  datatype Label = State1 | State2 | State3 | State4 | Final

  /** The label the goto machine stands at, the start s of the current name and the cursor c. */
  datatype Registers = Registers(at: Label, s: nat, c: nat) {
    /** this is one step further than r within the same name. */
    predicate Before(r: Registers) {
      at == Final || c == r.c + 1 ||
      (c == r.c && (if r.at == State1 then at == State2 else at == State3 || at == State4))
    }
  }

  /** The buffers that set_job_env works on. */
  class JobEnvBuilder {
    /** The -v text; set_job_env overwrites the end of every name in it with NUL. */
    var vValue: string
    var jobEnv: string
    var x11Disp: bool

    constructor (v: string)
      ensures vValue == v && jobEnv == "" && !x11Disp
    {
      vValue, jobEnv, x11Disp := v, "", false;
    }

    method AddFromEnv(name: string, env: Env) returns (ok: bool)
      modifies this`jobEnv
      ensures WithoutValue(name, env, old(jobEnv)) == if ok then Some(jobEnv) else None
    {
      if !StartsWith(name, PBS_O_ENV) {
        if name !in env {
          return false;
        }
        var rest;
        jobEnv, rest, ok := CopyEnvValue(jobEnv + "," + name + "=", env[name], true);
      } else {
        ok := true;
      }
    }

    /** rest is where c stands afterwards. */
    method AddGiven(name: string, text: string) returns (rest: string, ok: bool)
      modifies this`jobEnv
      ensures var r := WithValue(name, text, old(jobEnv));
              ok == !r.open && (ok ==> r == Copied(jobEnv, rest, false))
      ensures IsSuffix(rest, text)
    {
      var pc := jobEnv;
      jobEnv, rest, ok := CopyEnvValue(jobEnv + "," + name + "=", text, false);
      CopyRestIsSuffix(pc + "," + name + "=", text, NUL, false, IsFunc(text));
      if ok && StartsWith(name, PBS_O_ENV) {
        jobEnv := pc;
      }
    }

    /** From s on, the -v text is still what the caller gave. */
    ghost predicate Intact(v0: string, s: nat)
      reads this
    {
      s <= |vValue| == |v0| && forall i :: s <= i < |v0| ==> vValue[i] == v0[i]
    }

    /** state3 with the name at [s..c]; next is where c stands afterwards. */
    method State3Round(ghost v0: string, s: nat, c: nat, env: Env) returns (next: nat, ok: bool)
      requires Intact(v0, s) && NameAt(v0, s, c)
      modifies this`vValue, this`jobEnv
      ensures Intact(v0, next) && next == if c < |v0| then c + 1 else c
      ensures WithoutValue(v0[s..c], env, old(jobEnv)) == if ok then Some(jobEnv) else None
    {
      assert vValue[s..c] == v0[s..c];
      var name := vValue[s..c];
      next := c;
      if c < |vValue| {
        vValue, next := vValue[c := NUL], c + 1;
      }
      ok := AddFromEnv(name, env);
    }

    /** state4 with the name at [s..c]. */
    method State4Round(ghost v0: string, s: nat, c: nat, forwardX11: bool) returns (next: nat, ok: bool)
      requires Intact(v0, s) && NameAt(v0, s, c) && c < |v0|
      modifies this
      ensures Intact(v0, next) && c < next
      ensures var refused := forwardX11 && v0[s..c] == "DISPLAY";
              && x11Disp == (old(x11Disp) || refused)
              && (refused ==> !ok)
              && (!refused ==>
                  var r := WithValue(v0[s..c], v0[c + 1..], old(jobEnv));
                  ok == !r.open && (ok ==> r.out == jobEnv && r.rest == v0[next..]))
    {
      assert vValue[s..c] == v0[s..c];
      var name := vValue[s..c];
      vValue, next := vValue[c := NUL], c + 1;
      if forwardX11 && name == "DISPLAY" {
        x11Disp := true;
        return next, false;
      }
      assert vValue[next..] == v0[next..];
      var rest;
      rest, ok := AddGiven(name, vValue[next..]);
      SuffixOfRest(rest, v0, next);
      next := |vValue| - |rest|;
    }

    /** What holds whenever the machine stands at r: the walk w from the start ends like the one from here. */
    ghost predicate Reaches(w: Outcome, v0: string, env: Env, x11: bool, r: Registers)
      reads this
    {
      && r.s <= r.c <= |v0| && Intact(v0, r.s)
      && w == (if r.at == Final then Built(jobEnv) else Walk(v0[r.s..], env, x11, jobEnv))
      && (r.at == State1 ==> r.s == r.c)
      && (r.at == State2 ==> NameBegun(v0, r.s, r.c))
      && (r.at == State3 ==> NameAt(v0, r.s, r.c) && (r.c < |v0| ==> v0[r.c] == ','))
      && (r.at == State4 ==> NameAt(v0, r.s, r.c) && r.c < |v0| && v0[r.c] == '=')
    }

    /** Labels state1 and state2: they only read. ok is false where FALSE is returned. */
    method Scan(ghost w: Outcome, ghost v0: string, ghost env: Env, ghost x11: bool, r: Registers)
        returns (r': Registers, ok: bool)
      requires Reaches(w, v0, env, x11, r) && (r.at == State1 || r.at == State2)
      ensures if ok then Reaches(w, v0, env, x11, r') else w == Refused(false)
      ensures ok ==> r'.s == r.s && (r'.Before(r))
    {
      hide WithoutValue, WithValue, Walk, NameEnd;
      WalkStops(v0[r.s..], env, x11, jobEnv);
      NameEndStops(v0[r.c..]);
      ok := true;
      if r.at == State1 {
        if r.c == |vValue| {
          r' := r.(at := Final);
        } else if vValue[r.c] == ',' || vValue[r.c] == '=' {
          r', ok := r, false;
        } else {
          r' := r.(at := State2);
        }
      } else if r.c == |vValue| || vValue[r.c] == ',' {
        r' := r.(at := State3);
      } else if vValue[r.c] == '=' {
        r' := r.(at := State4);
      } else {
        NameEndStep(v0, r.s, r.c);
        r' := r.(c := r.c + 1);
      }
    }

    /** Labels state3 and state4: one entry of the -v text is done. */
    method Finish(ghost w: Outcome, ghost v0: string, env: Env, x11: bool, r: Registers)
        returns (r': Registers, ok: bool)
      requires Reaches(w, v0, env, x11, r) && (r.at == State3 || r.at == State4)
      modifies this
      ensures if ok then Reaches(w, v0, env, x11, r') && x11Disp == old(x11Disp)
              else w.Refused? && x11Disp == (old(x11Disp) || w == Refused(true))
      ensures ok ==> r.s < r'.s && r'.at == State1
      ensures |vValue| == |v0|
    {
      hide WithoutValue, WithValue, Walk;
      var c;
      if r.at == State3 {
        RoundBare(v0, r.s, r.c, env, x11, jobEnv);
        c, ok := State3Round(v0, r.s, r.c, env);
      } else {
        RoundGiven(v0, r.s, r.c, env, x11, jobEnv);
        c, ok := State4Round(v0, r.s, r.c, x11);
      }
      r' := Registers(State1, c, c);
    }

    /** The goto machine on the -v text. */
    method WalkVValue(env: Env, forwardX11: bool) returns (ok: bool)
      modifies this
      ensures |vValue| == |old(vValue)|
      ensures var w := Walk(old(vValue), env, forwardX11, old(jobEnv));
              && (if ok then w == Built(jobEnv) else w.Refused?)
              && x11Disp == (old(x11Disp) || w == Refused(true))
    {
      ghost var v0, w := vValue, Walk(vValue, env, forwardX11, jobEnv);
      hide Walk, NameEnd;
      assert v0[0..] == v0;
      var r := Registers(State1, 0, 0);
      ok := true;
      while ok && r.at != Final
        invariant |vValue| == |v0|
        invariant if ok then Reaches(w, v0, env, forwardX11, r) && x11Disp == old(x11Disp)
                  else w.Refused? && x11Disp == (old(x11Disp) || w == Refused(true))
        decreases ok, r.at != Final, |v0| - r.s, |v0| - r.c,
                  if r.at == State1 then 2 else if r.at == State2 then 1 else 0
      {
        if r.at == State1 || r.at == State2 {
          r, ok := Scan(w, v0, env, forwardX11, r);
        } else {
          r, ok := Finish(w, v0, env, forwardX11, r);
        }
      }
    }
  }

  /**
   * The whole of set_job_env. v and whole are -v and -V as given (None and false when the option is off),
   * basic and current the two prepared lists. On success the list is what is stored under ATTR_v.
   */
  method SetJobEnv(basic: string, current: string, v: Option<string>, whole: bool, env: Env, forwardX11: bool)
      returns (list: string, ok: bool, x11Disp: bool)
    ensures JobEnvOf(basic, current, v, whole, env, forwardX11) == if ok then Built(list) else Refused(x11Disp)
  {
    list, x11Disp := "", false;
    if basic == "" {
      return list, false, false;
    }
    list, ok := basic, true;
    if v.Some? {
      var b := new JobEnvBuilder(v.value);
      b.jobEnv := basic;
      ok := b.WalkVValue(env, forwardX11);
      list, x11Disp := b.jobEnv, b.x11Disp;
    }
    if whole && current != "" {
      list := list + current;
    } else {
      assert list + "" == list;
    }
  }

  lemma {:induction false} WalkStops(c: string, env: Env, x11: bool, acc: string)
    ensures c == "" ==> Walk(c, env, x11, acc) == Built(acc)
    ensures c != "" && (c[0] == ',' || c[0] == '=') ==> Walk(c, env, x11, acc) == Refused(false)
  {
    hide WithValue, WithoutValue;
  }

  lemma {:induction false} NameEndStops(c: string)
    ensures c == "" || c[0] == ',' || c[0] == '=' ==> NameEnd(c) == 0
  {
  }

  predicate IsSuffix(a: string, s: string) {
    |a| <= |s| && a == s[|s| - |a|..]
  }

  lemma {:induction false} SuffixOfRest(a: string, s: string, n: nat)
    requires n <= |s| && IsSuffix(a, s[n..])
    ensures IsSuffix(a, s)
  {
    assert s[n..][|s| - n - |a|..] == s[|s| - |a|..];
  }

  /** copy_env_value only moves forward. */
  lemma {:induction false} CopyRestIsSuffix(dest: string, pv: string, q: char, global: bool, fn: bool)
    ensures IsSuffix(Copy(dest, pv, q, global, fn).rest, pv)
    decreases |pv|
  {
    if pv != "" {
      hide IsSuffix;
      var c := pv[0];
      var d, p, n := dest + [c], q, 1;
      if IsQuote(c) {
        d, p := if q != c && (q != NUL || global) then dest + [ESC, c] else dest,
                if q == c then NUL else if q != NUL || global then q else c;
      } else if c == ESC {
        d := dest + if At(pv, 1) != ',' then [c, c] else [c];
      } else if c == ',' && (q != NUL || global) {
        d := dest + [ESC, c];
      } else if c == ',' && Last(dest) != ESC {
        StepIsSuffix(pv);
        return;
      } else if c == ';' && fn && At(pv, 1) == '\n' {
        n := 2;
      }
      CopyRestIsSuffix(d, pv[n..], p, global, fn);
      SuffixOfRest(Copy(d, pv[n..], p, global, fn).rest, pv, n);
    }
  }

  lemma {:induction false} StepIsSuffix(pv: string)
    requires pv != ""
    ensures IsSuffix(pv[1..], pv)
  {
  }

  // ----- one round of the goto machine on the -v text v, whose name stands at v[s..c] -----

  predicate NameBegun(v: string, s: nat, c: nat) {
    s < |v| && s <= c <= |v| && v[s] != ',' && v[s] != '=' && NameEnd(v[s..]) == (c - s) + NameEnd(v[c..])
  }

  predicate NameAt(v: string, s: nat, c: nat) {
    s < |v| && s <= c <= |v| && v[s] != ',' && v[s] != '=' && NameEnd(v[s..]) == c - s
  }

  lemma {:induction false} NameEndStep(v: string, s: nat, c: nat)
    requires s <= c < |v| && v[c] != ',' && v[c] != '='
    requires NameEnd(v[s..]) == (c - s) + NameEnd(v[c..])
    ensures NameEnd(v[s..]) == (c + 1 - s) + NameEnd(v[c + 1..])
  {
    assert v[c..][1..] == v[c + 1..];
  }

  lemma {:induction false} RoundGiven(v: string, s: nat, c: nat, env: Env, x11: bool, acc: string)
    requires NameAt(v, s, c) && c < |v| && v[c] == '='
    ensures var r := WithValue(v[s..c], v[c + 1..], acc);
            Walk(v[s..], env, x11, acc) ==
            if x11 && v[s..c] == "DISPLAY" then Refused(true)
            else if r.open then Refused(false)
            else Walk(r.rest, env, x11, r.out)
  {
    hide WithValue;
    var t := v[s..];
    assert t[..c - s] == v[s..c] && t[c - s + 1..] == v[c + 1..];
  }

  lemma {:induction false} RoundBare(v: string, s: nat, c: nat, env: Env, x11: bool, acc: string)
    requires NameAt(v, s, c) && (c < |v| ==> v[c] == ',')
    ensures Walk(v[s..], env, x11, acc)
         == match WithoutValue(v[s..c], env, acc)
            case None => Refused(false)
            case Some(list) => Walk(v[if c < |v| then c + 1 else c..], env, x11, list)
  {
    hide WithoutValue, WithValue, NameEnd;
    var t := v[s..];
    assert t[..c - s] == v[s..c];
    if c < |v| {
      assert t[c - s + 1..] == v[c + 1..];
    }
  }
}
