/** Plain variables in a -v list: expand_varlist and set_job_env (src/cmds/qsub.c:521-620, 4095-4218). */
module VariableList {
  import opened CText
  import opened EnvText
  import opened CommaEscape
  import opened JobEnv
  import QstatEnv

  /** A variable name: not empty, without '=' and without special characters. */
  predicate PlainName(n: string) {
    n != "" && Clean(n) && '=' !in n
  }

  /** name or name=value, as given to -v. */
  datatype Item = Item(name: string, value: Option<string>) {
    predicate Plain() {
      PlainName(name) && (value.Some? ==> PlainValue(value.value))
    }

    function Text(): string {
      if value.None? then name else name + "=" + EscCommas(value.value)
    }
  }

  // ----- one value -----

  lemma {:induction false} EscapedPlain(v: string, fn: bool)
    requires PlainValue(v)
    ensures Escaped(v, fn) == EscCommas(if fn then DropNewlines(v) else v)
    decreases |v|
  {
    if v != "" {
      var w := v[Turn(v, fn)..];
      EscapedPlain(w, fn);
      var k := if fn then DropNewlines(v) else v;
      assert k[1..] == if fn then DropNewlines(w) else w;
    }
  }

  lemma {:induction false} EscCommasNext(v: string, t: string)
    requires v != "" && v[0] != ',' && AtEnd(t)
    ensures var s := EscCommas(v) + t;
            s[0] == v[0] && s[1..] == EscCommas(v[1..]) + t && (At(s, 1) == '\n' <==> At(v, 1) == '\n')
  {
    var s := EscCommas(v) + t;
    assert s == [v[0]] + (EscCommas(v[1..]) + t);
    if |v| > 1 {
      assert EscCommas(v[1..])[0] == if v[1] == ',' then ESC else v[1];
    }
  }

  /** An escaped comma is copied as it stands. */
  lemma {:induction false} CopyComma(dest: string, x: string, fn: bool)
    requires Last(dest) != ESC
    ensures Copy(dest, [ESC, ','] + x, NUL, false, fn) == Copy(dest + [ESC, ','], x, NUL, false, fn)
  {
    var s := [ESC, ','] + x;
    assert s[1..] == [','] + x && s[1..][1..] == x;
    assert dest + [ESC] + [','] == dest + [ESC, ','];
  }

  lemma {:induction false} CopyStop(dest: string, t: string, fn: bool)
    requires AtEnd(t) && Last(dest) != ESC
    ensures Copy(dest, t, NUL, false, fn) == Copied(dest, if t == "" then "" else t[1..], false)
  {
  }

  /** One turn on a character that needs no escaping. */
  lemma {:induction false} CopyTurn(dest: string, v: string, t: string, fn: bool)
    requires v != "" && PlainValue(v) && v[0] != ',' && AtEnd(t)
    ensures Copy(dest, EscCommas(v) + t, NUL, false, fn)
         == Copy(dest + [v[0]], EscCommas(v[Turn(v, fn)..]) + t, NUL, false, fn)
  {
    EscCommasNext(v, t);
    var s := EscCommas(v) + t;
    if Turn(v, fn) == 2 {
      EscCommasNext(v[1..], t);
      assert s[1..][1..] == s[2..] && v[1..][1..] == v[2..];
    }
    hide EscCommas;
  }

  /** copy_env_value leaves escaped commas alone; a shell function loses newlines. */
  lemma {:induction false} CopyPlain(dest: string, v: string, t: string, fn: bool)
    requires PlainValue(v) && AtEnd(t) && Last(dest) != ESC
    ensures Copy(dest, EscCommas(v) + t, NUL, false, fn)
         == Copied(dest + EscCommas(KeptIf(v, fn)), if t == "" then "" else t[1..], false)
    decreases |v|
  {
    hide Copy;
    if v == "" {
      assert EscCommas(v) + t == t;
      assert dest + "" == dest;
      CopyStop(dest, t, fn);
    } else {
      var u := if v[0] == ',' then [ESC, ','] else [v[0]];
      var w := v[Turn(v, fn)..];
      CopyPlain(dest + u, w, t, fn);
      if v[0] == ',' {
        CopyComma(dest, EscCommas(w) + t, fn);
        assert EscCommas(v) + t == u + (EscCommas(w) + t);
      } else {
        CopyTurn(dest, v, t, fn);
      }
      KeptTail(v, fn);
      Assoc(dest, u, EscCommas(KeptIf(w, fn)));
    }
  }

  function KeptIf(v: string, fn: bool): string {
    if fn then DropNewlines(v) else v
  }

  lemma {:induction false} KeptTail(v: string, fn: bool)
    requires v != ""
    ensures EscCommas(KeptIf(v, fn)) ==
            (if v[0] == ',' then [ESC, ','] else [v[0]]) + EscCommas(KeptIf(v[Turn(v, fn)..], fn))
  {
    assert KeptIf(v, fn) == [v[0]] + KeptIf(v[Turn(v, fn)..], fn);
  }

  /** A value is seen as a shell function after escaping if and only if it is one. */
  lemma {:induction false} IsFuncEscaped(v: string, t: string)
    requires AtEnd(t)
    ensures IsFunc(EscCommas(v) + t) <==> IsFunc(v)
  {
    PrefixEscaped(v, t, "() {");
  }

  lemma {:induction false} PrefixEscaped(v: string, t: string, p: string)
    requires AtEnd(t) && ',' !in p && ESC !in p
    ensures p <= EscCommas(v) + t <==> p <= v
  {
    if p != "" {
      if v == "" {
        assert EscCommas(v) + t == t;
        assert p[0] in p;
      } else {
        var u := if v[0] == ',' then [ESC, ','] else [v[0]];
        assert EscCommas(v) + t == u + (EscCommas(v[1..]) + t);
        assert p[0] in p;
        if v[0] == p[0] {
          PrefixEscaped(v[1..], t, p[1..]);
          PrefixStep(p, v);
          PrefixStep(p, EscCommas(v) + t);
          assert (EscCommas(v) + t)[1..] == EscCommas(v[1..]) + t;
        }
      }
    }
  }

  lemma {:induction false} PrefixStep(p: string, s: string)
    requires p != "" && s != "" && p[0] == s[0]
    ensures p <= s <==> p[1..] <= s[1..]
  {
    assert p == [p[0]] + p[1..] && s == [s[0]] + s[1..];
  }

  /** The value behind name= in either list, when dest ends in '='. */
  lemma {:induction false} CopyEntry(dest: string, v: string, t: string)
    requires PlainValue(v) && AtEnd(t) && Last(dest) == '='
    ensures Copy(dest, EscCommas(v) + t, NUL, false, IsFunc(EscCommas(v) + t))
         == Copied(dest + EscCommas(Kept(v)), if t == "" then "" else t[1..], false)
  {
    hide Copy, EscCommas;
    IsFuncEscaped(v, t);
    CopyPlain(dest, v, t, IsFunc(v));
  }

  // ----- expand_varlist on a list of items -----

  function RenderTail(items: seq<Item>): string {
    if items == [] then "" else "," + items[0].Text() + RenderTail(items[1..])
  }

  /** The -v argument. */
  function Render(items: seq<Item>): string {
    if items == [] then "" else items[0].Text() + RenderTail(items[1..])
  }

  function Texts(items: seq<Item>): seq<string> {
    if items == [] then [] else [items[0].Text()] + Texts(items[1..])
  }

  /** The variable that an item stands for; a bare name that qsub makes itself is dropped. */
  function Resolved(i: Item, env: Env): seq<Entry> {
    if i.value.Some? then [Entry(i.name, Kept(i.value.value))]
    else if i.name !in env || StartsWith(i.name, PBS_O_ENV) then []
    else [Entry(i.name, Kept(env[i.name]))]
  }

  function Resolve(items: seq<Item>, env: Env): seq<Entry> {
    if items == [] then [] else Resolved(items[0], env) + Resolve(items[1..], env)
  }

  /** qsub can find a value. */
  predicate Known(i: Item, env: Env) {
    i.value.Some? || StartsWith(i.name, PBS_O_ENV) || i.name in env
  }

  predicate PlainIn(i: Item, env: Env) {
    i.Plain() && (i.name in env ==> PlainValue(env[i.name]))
  }

  predicate AllKnown(items: seq<Item>, env: Env) {
    forall i <- items :: Known(i, env)
  }

  predicate AllPlain(items: seq<Item>, env: Env) {
    forall i <- items :: PlainIn(i, env)
  }

  lemma {:induction false} AllOfRest(items: seq<Item>, env: Env)
    requires items != []
    ensures AllKnown(items, env) <==> Known(items[0], env) && AllKnown(items[1..], env)
    ensures AllPlain(items, env) ==> PlainIn(items[0], env) && AllPlain(items[1..], env)
  {
    assert items == [items[0]] + items[1..];
  }

  lemma {:induction false} ItemToken(i: Item, t: string)
    requires i.Plain() && AtEnd(t)
    ensures i.Text() != "" && TokenEnd(i.Text() + t, NUL) == |i.Text()|
  {
    hide TokenEnd, Unescape;
    if i.value.None? {
      CleanPrefix(i.name, t);
      TokenAtEnd(t);
    } else {
      var v := i.value.value;
      EscapedPlain(v, false);
      NoPair(v);
      EscapedIsOneToken(v, false, t);
      CleanPrefix(i.name + "=", EscCommas(v) + t);
      assert i.Text() + t == i.name + "=" + (EscCommas(v) + t);
    }
  }

  lemma {:induction false} NoPair(v: string)
    requires PlainValue(v)
    ensures !HasPair(v, ESC, ',')
  {
    if v != "" {
      NoPair(v[1..]);
    }
  }

  lemma {:induction false} RenderTokens(items: seq<Item>)
    requires forall i <- items :: i.Plain()
    ensures Tokens(Render(items)) == Texts(items)
  {
    hide Tokens, TokenEnd;
    if items == [] {
      NoTokens();
    } else {
      assert items[0] in items;
      var t := RenderTail(items[1..]);
      ItemToken(items[0], t);
      TokensUnfold(items[0].Text(), t);
      RenderTokens(items[1..]);
      assert |items| > 1 ==> t[1..] == Render(items[1..]);
    }
  }

  lemma {:induction false} SepJoin(acc: seq<Entry>, e: Entry)
    ensures Sep(Join(acc)) + e.Text() == Join(acc + [e])
  {
    if acc == [] {
      assert acc + [e] == [e];
      assert Sep(Join(acc)) + e.Text() == e.Text();
      assert Join([e]) == e.Text() + Tail([]);
    } else {
      JoinAppend(acc, [e]);
      assert Tail([e]) == "," + e.Text() + Tail([e][1..]);
      assert [e][1..] == [];
    }
  }

  lemma {:induction false} ExpandItem(i: Item, env: Env, acc: seq<Entry>)
    requires PlainIn(i, env)
    ensures ExpandToken(i.Text(), env, Join(acc))
         == if Known(i, env) then Some(Join(acc + Resolved(i, env))) else None
  {
    hide Copy, Escaped, EscCommas, Join;
    var dest := Sep(Join(acc)) + i.name + "=";
    if i.value.Some? {
      var v := i.value.value;
      IndexOfFirst(i.name, '=', EscCommas(v));
      assert i.Text() == i.name + ['='] + EscCommas(v);
      assert i.Text()[..|i.name|] == i.name && i.Text()[|i.name| + 1..] == EscCommas(v);
      CopyEntry(dest, v, "");
      assert EscCommas(v) + "" == EscCommas(v);
      SepJoin(acc, Entry(i.name, Kept(v)));
      assert dest + EscCommas(Kept(v)) == Sep(Join(acc)) + Entry(i.name, Kept(v)).Text();
    } else {
      IndexOfAbsent(i.name, '=');
      if StartsWith(i.name, PBS_O_ENV) {
        assert acc + [] == acc;
      } else if i.name in env {
        var v := env[i.name];
        CopyGlobal(dest, v, IsFunc(v));
        EscapedPlain(v, IsFunc(v));
        SepJoin(acc, Entry(i.name, Kept(v)));
        assert dest + EscCommas(Kept(v)) == Sep(Join(acc)) + Entry(i.name, Kept(v)).Text();
      }
    }
  }

  lemma {:induction false} ExpandFirst(text: string, texts: seq<string>, env: Env, dest: string)
    ensures ExpandTokens([text] + texts, env, dest)
         == match ExpandToken(text, env, dest)
            case None => None
            case Some(a) => ExpandTokens(texts, env, a)
  {
    hide ExpandToken;
    assert ([text] + texts)[1..] == texts;
  }

  lemma {:induction false} ResolveFirst(items: seq<Item>, env: Env, acc: seq<Entry>)
    requires items != []
    ensures Texts(items) == [items[0].Text()] + Texts(items[1..])
    ensures acc + Resolved(items[0], env) + Resolve(items[1..], env) == acc + Resolve(items, env)
  {
    hide Item.Text, Resolved;
  }

  lemma {:induction false} ExpandItems(items: seq<Item>, env: Env, acc: seq<Entry>)
    requires AllPlain(items, env)
    ensures ExpandTokens(Texts(items), env, Join(acc))
         == if AllKnown(items, env) then Some(Join(acc + Resolve(items, env))) else None
  {
    if items == [] {
      assert acc + [] == acc;
    } else {
      hide *;
      AllOfRest(items, env);
      ExpandItem(items[0], env, acc);
      ResolveFirst(items, env, acc);
      ExpandFirst(items[0].Text(), Texts(items[1..]), env, Join(acc));
      if Known(items[0], env) {
        ExpandItems(items[1..], env, acc + Resolved(items[0], env));
      }
    }
  }

  /**
   * expand_varlist turns a -v list into exactly the variables it names, in order, with the values given or
   * found in the environment; it fails if and only if a bare name has no value there.
   */
  lemma {:induction false} ExpandResolves(items: seq<Item>, env: Env)
    requires AllPlain(items, env)
    ensures ExpandTokens(Tokens(Render(items)), env, "")
         == if AllKnown(items, env) then Some(Join(Resolve(items, env))) else None
  {
    hide Tokens, ExpandTokens, Resolve, Render;
    RenderTokens(items);
    ExpandItems(items, env, []);
    assert [] + Resolve(items, env) == Resolve(items, env);
  }

  // ----- set_job_env on the expanded list -----

  /** What set_job_env sends of a list: not the names that qsub makes itself. */
  function Sent(es: seq<Entry>): seq<Entry> {
    if es == [] then []
    else (if StartsWith(es[0].key, PBS_O_ENV) then [] else [Entry(es[0].key, Kept(es[0].value))]) + Sent(es[1..])
  }

  lemma {:induction false} NameEndAt(n: string, x: string)
    requires PlainName(n) || n == ""
    ensures NameEnd(n + "=" + x) == |n|
  {
    var s := n + "=" + x;
    if n == "" {
      assert s[0] == '=';
    } else {
      assert s[1..] == n[1..] + "=" + x;
      assert n[0] in n && forall c <- n[1..] :: c in n;
      NameEndAt(n[1..], x);
    }
  }

  lemma {:induction false} WalkGiven(key: string, x: string, env: Env, acc: string)
    requires PlainName(key)
    ensures var r := WithValue(key, x, acc);
            Walk(key + "=" + x, env, false, acc) == if r.open then Refused(false) else Walk(r.rest, env, false, r.out)
  {
    hide WithValue, NameEnd;
    var c := key + "=" + x;
    NameEndAt(key, x);
    assert key[0] in key;
    assert c[..|key|] == key && c[|key| + 1..] == x;
  }

  lemma {:induction false} SentOne(e: Entry)
    ensures Tail(Sent([e]))
         == if StartsWith(e.key, PBS_O_ENV) then "" else "," + e.key + "=" + EscCommas(Kept(e.value))
  {
    hide EscCommas;
    assert [e][1..] == [];
    var f := Entry(e.key, Kept(e.value));
    assert [f][1..] == [];
    assert Sent([e]) == if StartsWith(e.key, PBS_O_ENV) then [] else [f];
    assert Tail([f]) == "," + f.Text() + "";
  }

  lemma {:induction false} EntryCopied(e: Entry, t: string, acc: string)
    requires PlainValue(e.value) && AtEnd(t)
    ensures WithValue(e.key, EscCommas(e.value) + t, acc)
         == Copied(acc + Tail(Sent([e])), if t == "" then "" else t[1..], false)
  {
    hide Copy, EscCommas, Tail, Sent, PlainValue, StartsWith, Kept, AtEnd, IsFunc;
    var dest := acc + "," + e.key + "=";
    CopyEntry(dest, e.value, t);
    SentOne(e);
    if StartsWith(e.key, PBS_O_ENV) {
      assert acc + "" == acc;
    } else {
      Assoc(acc, "," + e.key + "=", EscCommas(Kept(e.value)));
      Assoc(acc, "," + e.key, "=");
      Assoc(acc, ",", e.key);
    }
  }

  lemma {:induction false} WalkEntry(e: Entry, t: string, env: Env, acc: string)
    requires PlainName(e.key) && PlainValue(e.value) && AtEnd(t)
    ensures Walk(e.Text() + t, env, false, acc)
         == Walk(if t == "" then "" else t[1..], env, false, acc + Tail(Sent([e])))
  {
    assert e.Text() + t == e.key + "=" + (EscCommas(e.value) + t);
    hide *;
    WalkGiven(e.key, EscCommas(e.value) + t, env, acc);
    EntryCopied(e, t, acc);
  }

  lemma {:induction false} WalkFirst(es: seq<Entry>, env: Env, acc: string)
    requires es != [] && PlainName(es[0].key) && PlainValue(es[0].value)
    ensures Walk(Join(es), env, false, acc) == Walk(Join(es[1..]), env, false, acc + Tail(Sent([es[0]])))
  {
    hide Walk, EscCommas, Tail, Sent;
    QstatEnv.TailEmpty(es[1..]);
    WalkEntry(es[0], Tail(es[1..]), env, acc);
  }

  lemma {:induction false} SentFirst(es: seq<Entry>, acc: string)
    requires es != []
    ensures acc + Tail(Sent([es[0]])) + Tail(Sent(es[1..])) == acc + Tail(Sent(es))
  {
    hide Tail, Sent;
    SentSplit(es);
    TailAppend(Sent([es[0]]), Sent(es[1..]));
  }

  /** The goto machine, started on a list of entries, appends exactly those that are to be sent, in order. */
  lemma {:induction false} WalkEntries(es: seq<Entry>, env: Env, acc: string)
    requires forall e <- es :: PlainName(e.key) && PlainValue(e.value)
    ensures Walk(Join(es), env, false, acc) == Built(acc + Tail(Sent(es)))
  {
    if es == [] {
      WalkStops("", env, false, acc);
      assert acc + "" == acc;
    } else {
      assert es[0] in es;
      WalkFirst(es, env, acc);
      WalkEntries(es[1..], env, acc + Tail(Sent([es[0]])));
      SentFirst(es, acc);
      hide *;
    }
  }

  /** With X forwarding a value given for DISPLAY is refused. */
  lemma {:induction false} WalkGivenX11(key: string, x: string, env: Env, acc: string)
    requires PlainName(key)
    ensures
      var r := WithValue(key, x, acc);
      Walk(key + "=" + x, env, true, acc) ==
      if key == "DISPLAY" then Refused(true)
      else if r.open then Refused(false)
      else Walk(r.rest, env, true, r.out)
  {
    hide WithValue, NameEnd;
    var c := key + "=" + x;
    NameEndAt(key, x);
    assert key[0] in key;
    assert c[..|key|] == key && c[|key| + 1..] == x;
  }

  lemma {:induction false} WalkFirstX11(es: seq<Entry>, env: Env, acc: string)
    requires es != [] && PlainName(es[0].key) && PlainValue(es[0].value)
    ensures Walk(Join(es), env, true, acc)
         == if es[0].key == "DISPLAY" then Refused(true)
            else Walk(Join(es[1..]), env, true, acc + Tail(Sent([es[0]])))
  {
    var e, t := es[0], Tail(es[1..]);
    QstatEnv.TailEmpty(es[1..]);
    assert Join(es) == e.key + "=" + (EscCommas(e.value) + t);
    hide *;
    WalkGivenX11(e.key, EscCommas(e.value) + t, env, acc);
    EntryCopied(e, t, acc);
  }

  /** With X forwarding a list is refused for that reason if and only if it gives a value for DISPLAY, and treated as
      without it otherwise. */
  lemma {:induction false} WalkEntriesX11(es: seq<Entry>, env: Env, acc: string)
    requires forall e <- es :: PlainName(e.key) && PlainValue(e.value)
    ensures Walk(Join(es), env, true, acc)
         == if exists e <- es :: e.key == "DISPLAY" then Refused(true) else Built(acc + Tail(Sent(es)))
  {
    if es == [] {
      WalkStops("", env, true, acc);
      assert acc + "" == acc;
    } else {
      assert es[0] in es && es == [es[0]] + es[1..];
      WalkFirstX11(es, env, acc);
      WalkEntriesX11(es[1..], env, acc + Tail(Sent([es[0]])));
      SentFirst(es, acc);
      hide *;
    }
  }

  /** A name without a value gets the one that it has in the environment, escaped; one of qsub's own is dropped. */
  lemma {:induction false} WalkBare(n: string, t: string, env: Env, x11: bool, acc: string)
    requires PlainName(n) && AtEnd(t)
    ensures
      var rest := if t == "" then "" else t[1..];
      Walk(n + t, env, x11, acc) ==
      if StartsWith(n, PBS_O_ENV) then Walk(rest, env, x11, acc)
      else if n !in env then Refused(false)
      else Walk(rest, env, x11, acc + "," + n + "=" + Escaped(env[n], IsFunc(env[n])))
  {
    NameEndBare(n, t);
    assert n[0] in n;
    assert (n + t)[..|n|] == n && (t != "" ==> (n + t)[|n| + 1..] == t[1..]);
    if n in env {
      CopyGlobal(acc + "," + n + "=", env[n], IsFunc(env[n]));
    }
    hide Copy, Escaped, NameEnd, StartsWith;
  }

  lemma {:induction false} NameEndBare(n: string, t: string)
    requires (PlainName(n) || n == "") && AtEnd(t)
    ensures NameEnd(n + t) == |n|
  {
    if n == "" {
      assert n + t == t;
    } else {
      assert (n + t)[1..] == n[1..] + t;
      assert n[0] in n && forall c <- n[1..] :: c in n;
      NameEndBare(n[1..], t);
    }
  }

  lemma {:induction false} SentSplit(es: seq<Entry>)
    requires es != []
    ensures Sent(es) == Sent([es[0]]) + Sent(es[1..])
  {
    assert [es[0]][1..] == [];
  }

  lemma {:induction false} KeptPlain(v: string)
    requires PlainValue(v)
    ensures PlainValue(Kept(v))
  {
    DropPlain(v);
  }

  lemma {:induction false} DropPlain(v: string)
    requires PlainValue(v)
    ensures PlainValue(DropNewlines(v))
    decreases |v|
  {
    if v != "" {
      DropPlain(v[Turn(v, true)..]);
    }
  }

  /** A quote or a backslash of the value makes the escaped form unsteady. */
  lemma {:induction false} MarkedIsUnsteady(v: string, fn: bool, prev: char, again: bool)
    requires !PlainValue(v)
    ensures !Steady(Escaped(v, fn), prev, again)
    decreases |v|
  {
    var w := v[Turn(v, fn)..];
    var e := Escaped(v, fn);
    assert e == Unit(v) + Escaped(w, fn);
    if IsQuote(v[0]) {
      assert e[1..][0] == v[0];
    } else if v[0] == ESC {
      assert e[0] == ESC && At(e, 1) == ESC;
    } else {
      assert !PlainValue(w) by {
        var i :| 0 <= i < |v| && (IsQuote(v[i]) || v[i] == ESC);
        assert v[i] == w[i - Turn(v, fn)];
      }
      MarkedIsUnsteady(w, fn, v[0], again);
      if v[0] == ',' {
        assert e[1..][1..] == Escaped(w, fn) && e[1..][0] == ',';
      } else {
        assert e[1..] == Escaped(w, fn);
      }
    }
  }

  lemma {:induction false} IsFuncKept(v: string)
    ensures IsFunc(Kept(v)) <==> IsFunc(v)
  {
    if IsFunc(v) {
      assert v == "() {" + v[4..];
      DropPrefix("() {", v[4..]);
    }
  }

  /**
   * A second pass of copy_env_value changes nothing in the escaped form of a value if and only if the value is free of
   * quotes and backslashes and is not a shell function in which the first pass has left a newline after a semicolon.
   */
  lemma {:induction false} SecondPassIsIdentity(dest: string, v: string)
    requires Last(dest) == '='
    ensures var s := Escaped(v, IsFunc(v));
            Copy(dest, s, NUL, false, IsFunc(s)) == Copied(dest + s, "", false)
            <==> PlainValue(v) && !(IsFunc(v) && HasPair(Kept(v), ';', '\n'))
  {
    hide Copy;
    var s, w := Escaped(v, IsFunc(v)), Kept(v);
    if PlainValue(v) {
      EscapedPlain(v, IsFunc(v));
      KeptPlain(v);
      KeptPlain(w);
      IsFuncKept(v);
      assert s == EscCommas(w) == EscCommas(w) + "";
      CopyEntry(dest, w, "");
      assert (dest + EscCommas(Kept(w)))[|dest|..] == EscCommas(Kept(w));
      assert (dest + s)[|dest|..] == s;
      EscCommasInjective(Kept(w), w);
      KeptAll(w);
      hide EscCommas, Kept, Escaped;
    } else {
      MarkedIsUnsteady(v, IsFunc(v), '=', IsFunc(s));
      CopyIsIdentity(dest, s, IsFunc(s));
    }
  }

  lemma {:induction false} EscCommasInjective(a: string, b: string)
    requires PlainValue(a) && PlainValue(b)
    ensures EscCommas(a) == EscCommas(b) <==> a == b
  {
    if a != "" && b != "" {
      EscCommasInjective(a[1..], b[1..]);
      EscCommasFront(a);
      EscCommasFront(b);
      assert a == [a[0]] + a[1..] && b == [b[0]] + b[1..];
    }
  }

  lemma {:induction false} EscCommasFront(a: string)
    requires a != ""
    ensures var x := EscCommas(a);
            && (a[0] == ',' ==> |x| >= 2 && x[0] == ESC && x[2..] == EscCommas(a[1..]))
            && (a[0] != ',' ==> |x| >= 1 && x[0] == a[0] && x[1..] == EscCommas(a[1..]))
  {
  }

  lemma {:induction false} DropPrefix(p: string, s: string)
    requires ';' !in p
    ensures DropNewlines(p + s) == p + DropNewlines(s)
  {
    if p == "" {
      assert p + s == s;
    } else {
      assert p[0] in p && forall c <- p[1..] :: c in p;
      assert p + s == [p[0]] + (p[1..] + s);
      DropPrefix(p[1..], s);
    }
  }

  /** Such a function body loses one newline in expand_varlist and another one in set_job_env. */
  lemma {:induction false} TwoPassesLoseTwice()
    ensures Kept("() {;\n\n}") == "() {;\n}" && Kept("() {;\n}") == "() {;}"
  {
    DropOne("\n}");
    DropOne("}");
    hide DropNewlines;
    assert "() {;\n\n}" == "() {" + (";\n" + "\n}");
    assert "() {;\n}" == "() {" + (";\n" + "}");
    DropPrefix("() {", ";\n" + "\n}");
    DropPrefix("() {", ";\n" + "}");
    DropPrefix("\n}", "");
    DropPrefix("}", "");
    assert "\n}" + "" == "\n}" && "}" + "" == "}";
    assert DropNewlines("") == "" by {
      DropNothing("");
    }
  }

  lemma {:induction false} DropOne(s: string)
    ensures DropNewlines(";\n" + s) == ";" + DropNewlines(s)
  {
    assert (";\n" + s)[2..] == s;
  }
}
