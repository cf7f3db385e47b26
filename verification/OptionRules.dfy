/** What holds after any run of options: precedence and the exclusion of modes (src/cmds/qsub.c:2758-3330). */
module OptionRules {
  import opened CText
  import opened JobEnv
  import opened Options

  // ----- precedence -----

  /** The options with one value each. */
  datatype Kind = KDest | KPrefix | KName | KVars

  predicate Is(o: Opt, k: Kind) {
    match k
    case KDest => o.Dest?
    case KPrefix => o.Prefix?
    case KName => o.Name?
    case KVars => o.Vars?
  }

  function Register(s: State, k: Kind): nat {
    match k
    case KDest => s.qOpt
    case KPrefix => s.cOpt
    case KName => s.nOpt
    case KVars => s.vOpt
  }

  /** The values of the entries called name. */
  function Values(attrib: seq<Attr>, name: string): seq<string> {
    if attrib == [] then []
    else
      var n := |attrib| - 1;
      Values(attrib[..n], name) + if attrib[n].name == name then [attrib[n].value] else []
  }

  /** The slot of the option has the value that arg asks for; for -N every entry of the list. */
  predicate Holds(s: State, k: Kind, arg: string, env: Env) {
    match k
    case KDest => s.destination == arg
    case KPrefix => s.dirPrefix == arg
    case KName =>
      var vs := Values(s.attrib, ATTR_N);
      vs != [] && forall i :: 0 <= i < |vs| ==> vs[i] == arg
    case KVars => s.vValue == Expand(arg, env)
  }

  predicate SameSlot(s: State, t: State, k: Kind) {
    match k
    case KDest => s.destination == t.destination
    case KPrefix => s.dirPrefix == t.dirPrefix
    case KName => Values(s.attrib, ATTR_N) == Values(t.attrib, ATTR_N)
    case KVars => s.vValue == t.vValue
  }

  /** Occurrence i is the last of those from the source with the highest priority that uses the option. */
  predicate Wins(occ: seq<Occurrence>, i: nat, k: Kind) {
    && i < |occ| && Is(occ[i].o, k)
    && forall j :: 0 <= j < |occ| && Is(occ[j].o, k) ==> occ[j].p < occ[i].p || (occ[j].p == occ[i].p && j <= i)
  }

  predicate Unused(occ: seq<Occurrence>, k: Kind) {
    forall i :: 0 <= i < |occ| ==> !Is(occ[i].o, k)
  }

  lemma {:induction false} ValuesAppend(attrib: seq<Attr>, a: Attr, name: string)
    ensures Values(attrib + [a], name) == Values(attrib, name) + if a.name == name then [a.value] else []
  {
    assert (attrib + [a])[..|attrib|] == attrib;
  }

  lemma {:induction false} HasValue(attrib: seq<Attr>, name: string)
    ensures Has(attrib, name) <==> Values(attrib, name) != []
  {
    if attrib != [] {
      var n := |attrib| - 1;
      HasValue(attrib[..n], name);
      hide Values;
      ValuesAppend(attrib[..n], attrib[n], name);
      assert attrib == attrib[..n] + [attrib[n]];
      assert forall i :: 0 <= i < n ==> attrib[..n][i] == attrib[i];
    }
  }

  lemma {:induction false} ReplaceLast(some: seq<Attr>, a: Attr, name: string, value: string)
    ensures Replace(some + [a], name, value)
         == Replace(some, name, value) + [if a.name == name then Attr(name, value) else a]
  {
    assert (some + [a])[..|some|] == some;
  }

  lemma {:induction false} ValuesReplaced(attrib: seq<Attr>, name: string, value: string)
    ensures var vs := Values(Replace(attrib, name, value), name); forall i :: 0 <= i < |vs| ==> vs[i] == value
    ensures |Values(Replace(attrib, name, value), name)| == |Values(attrib, name)|
  {
    if attrib != [] {
      var n := |attrib| - 1;
      ValuesReplaced(attrib[..n], name, value);
      ReplaceLast(attrib[..n], attrib[n], name, value);
      hide Values, Replace;
      var a := if attrib[n].name == name then Attr(name, value) else attrib[n];
      ValuesAppend(Replace(attrib[..n], name, value), a, name);
      ValuesAppend(attrib[..n], attrib[n], name);
      assert attrib == attrib[..n] + [attrib[n]];
    }
  }

  /** All that the keywords of -W can do. */
  ghost predicate OnlyModes(s: State, t: State) {
    && t == s.(interactOpt := t.interactOpt, blockOpt := t.blockOpt, attrib := t.attrib, errors := t.errors)
    && (forall name :: name != ATTR_inter ==> Values(t.attrib, name) == Values(s.attrib, name))
  }

  lemma {:induction false} ItemsDo(s: State, items: seq<Item>, clean: bool, p: Source, port: string)
    ensures OnlyModes(s, ApplyItems(s, items, clean, p, port))
    decreases |items|
  {
    hide Values, SameIgnoringCase;
    if items != [] {
      forall name | name != ATTR_inter
        ensures Values(Set(s, ATTR_inter, port).attrib, name) == Values(s.attrib, name)
      {
        ValuesAppend(s.attrib, Attr(ATTR_inter, port), name);
      }
      ItemsDo(s, items[1..], clean, p, port);
      ItemsDo(Set(s, ATTR_inter, port).(interactOpt := p), items[1..], clean, p, port);
      ItemsDo(s.(blockOpt := p), items[1..], clean, p, port);
    }
  }

  /** An option changes no other option's slot. */
  lemma {:induction false} OthersStay(s: State, o: Opt, p: Source, k: Kind, site: Site)
    requires !Is(o, k)
    ensures Register(Apply(s, o, p, site), k) == Register(s, k) && SameSlot(s, Apply(s, o, p, site), k)
  {
    hide ApplyItems, Values, Replace;
    match o
    case Interactive => ValuesAppend(s.attrib, Attr(ATTR_inter, site.port), ATTR_N);
    case Array(arg) => ValuesAppend(s.attrib, Attr(ATTR_J, arg), ATTR_N);
    case Rerun(arg) => ValuesAppend(s.attrib, Attr(ATTR_r, arg), ATTR_N);
    case Extra(items, clean) => ItemsDo(s, items, clean, p, site.port);
    case Finish => ValuesAppend(s.attrib, Attr(ATTR_block, site.port), ATTR_N);
    case _ =>
  }

  /** An option of the kind counts unless one with more priority has been there. */
  lemma {:induction false} OneDoes(s: State, o: Opt, p: Source, k: Kind, site: Site)
    requires Is(o, k) && !s.gone
    ensures
      var t := Apply(s, o, p, site);
      if p < Register(s, k) then t == s
      else Register(t, k) == p && (!t.gone ==> Holds(t, k, o.arg, site.env))
  {
    if k == KName {
      HasValue(s.attrib, ATTR_N);
      ValuesReplaced(s.attrib, ATTR_N, o.arg);
      ValuesAppend(s.attrib, Attr(ATTR_N, o.arg), ATTR_N);
    }
  }

  lemma {:induction false} WinsBefore(occ: seq<Occurrence>, i: nat, k: Kind)
    requires occ != [] && Wins(occ, i, k) && i < |occ| - 1
    ensures Wins(occ[..|occ| - 1], i, k)
    ensures Is(occ[|occ| - 1].o, k) ==> occ[|occ| - 1].p < occ[i].p
  {
    var some := occ[..|occ| - 1];
    assert forall j :: 0 <= j < |some| ==> some[j] == occ[j];
  }

  /** Whatever the last occurrence did, the register has the highest priority so far. */
  lemma {:induction false} RegisterIsHighest(s: State, occ: seq<Occurrence>, k: Kind, site: Site)
    requires Register(s, k) == 0 && !Run(s, occ, site).gone
    ensures forall i :: 0 <= i < |occ| && Is(occ[i].o, k) ==> occ[i].p <= Register(Run(s, occ, site), k)
    ensures Unused(occ, k) ||
            exists i :: 0 <= i < |occ| && Is(occ[i].o, k) && occ[i].p == Register(Run(s, occ, site), k)
    ensures Unused(occ, k) ==> Register(Run(s, occ, site), k) == 0 && SameSlot(s, Run(s, occ, site), k)
  {
    hide Apply, Register, Is, SameSlot;
    if occ != [] {
      var n := |occ| - 1;
      var some, last := occ[..n], occ[n];
      NotGoneBefore(s, occ, site);
      RegisterIsHighest(s, some, k, site);
      assert forall i :: 0 <= i < n ==> occ[i] == some[i];
      var before := Run(s, some, site);
      if Is(last.o, k) {
        OneDoes(before, last.o, last.p, k, site);
        if last.p < Register(before, k) && !Unused(some, k) {
          var i :| 0 <= i < n && Is(some[i].o, k) && some[i].p == Register(before, k);
          assert occ[i] == some[i];
        }
      } else {
        OthersStay(before, last.o, last.p, k, site);
        if Unused(some, k) {
          SameTwice(s, before, Run(s, occ, site), k);
        } else {
          var i :| 0 <= i < n && Is(some[i].o, k) && some[i].p == Register(before, k);
          assert occ[i] == some[i];
        }
      }
    } else {
      SameTwice(s, s, s, k);
    }
  }

  lemma {:induction false} SameTwice(s: State, t: State, u: State, k: Kind)
    ensures SameSlot(s, s, k) && (SameSlot(s, t, k) && SameSlot(t, u, k) ==> SameSlot(s, u, k))
  {
  }

  lemma {:induction false} NotGoneBefore(s: State, occ: seq<Occurrence>, site: Site)
    requires occ != [] && !Run(s, occ, site).gone
    ensures !Run(s, occ[..|occ| - 1], site).gone
  {
  }

  lemma {:induction false} HoldsStays(s: State, t: State, k: Kind, arg: string, env: Env)
    requires SameSlot(s, t, k) && Holds(s, k, arg, env)
    ensures Holds(t, k, arg, env)
  {
  }

  /** The slot of -q, -C, -N or -v ends with the value of the last occurrence from the source with the highest priority
      among those that use the option, in whatever order the sources come. Unused, it stays as it was. */
  lemma {:induction false} Precedence(s: State, occ: seq<Occurrence>, i: nat, k: Kind, site: Site)
    requires Register(s, k) == 0 && Wins(occ, i, k) && !Run(s, occ, site).gone
    ensures Holds(Run(s, occ, site), k, occ[i].o.arg, site.env) && Register(Run(s, occ, site), k) == occ[i].p
  {
    hide Apply, Register, SameSlot, Holds;
    var n := |occ| - 1;
    var some, last := occ[..n], occ[n];
    NotGoneBefore(s, occ, site);
    var before := Run(s, some, site);
    RegisterIsHighest(s, some, k, site);
    if i < n {
      WinsBefore(occ, i, k);
      Precedence(s, some, i, k, site);
      if Is(last.o, k) {
        OneDoes(before, last.o, last.p, k, site);
      } else {
        OthersStay(before, last.o, last.p, k, site);
        HoldsStays(before, Run(s, occ, site), k, occ[i].o.arg, site.env);
      }
    } else {
      OneDoes(before, last.o, last.p, k, site);
      assert forall j :: 0 <= j < n ==> some[j] == occ[j];
    }
  }

  // ----- the exclusion of modes -----

  /** Neither array and interactive nor block and interactive are set, and an array can be run again. */
  predicate Exclusive(s: State) {
    && (s.jOpt != 0 ==> s.interactOpt == 0 && s.roptarg == 'y')
    && (s.blockOpt != 0 ==> s.interactOpt == 0)
  }

  lemma {:induction false} ItemsExclude(s: State, items: seq<Item>, clean: bool, p: Source, port: string)
    requires Exclusive(s)
    ensures Exclusive(ApplyItems(s, items, clean, p, port))
    decreases |items|
  {
    hide SameIgnoringCase;
    if items != [] {
      ItemsExclude(s, items[1..], clean, p, port);
      if s.jOpt == 0 && s.blockOpt == 0 {
        ItemsExclude(Set(s, ATTR_inter, port).(interactOpt := p), items[1..], clean, p, port);
      }
      if s.interactOpt == 0 {
        ItemsExclude(s.(blockOpt := p), items[1..], clean, p, port);
      }
    }
  }

  /** After any run, faulty options included, the modes exclude each other. */
  lemma {:induction false} ModesExclude(s: State, occ: seq<Occurrence>, site: Site)
    requires Exclusive(s)
    ensures Exclusive(Run(s, occ, site))
  {
    hide ApplyItems;
    if occ != [] {
      var n := |occ| - 1;
      ModesExclude(s, occ[..n], site);
      var o := occ[n].o;
      if o.Extra? {
        ItemsExclude(Run(s, occ[..n], site), o.items, o.clean, occ[n].p, site.port);
      }
    }
  }

  /** What the last entry for -r says; "y" when there is none. */
  function Rerunnable(attrib: seq<Attr>): string {
    var vs := Values(attrib, ATTR_r);
    if vs == [] then "y" else vs[|vs| - 1]
  }

  /** The attributes that will be sent agree with the registers. */
  predicate Agrees(s: State) {
    && (Values(s.attrib, ATTR_J) != [] <==> s.jOpt != 0)
    && (Values(s.attrib, ATTR_inter) != [] <==> s.interactOpt != 0)
    && Rerunnable(s.attrib) == [s.roptarg] && s.roptarg in {'y', 'n'}
  }

  lemma {:induction false} SameRerunnable(attrib: seq<Attr>, a: Attr)
    ensures Rerunnable(attrib + [a]) == if a.name == ATTR_r then a.value else Rerunnable(attrib)
  {
    ValuesAppend(attrib, a, ATTR_r);
  }

  lemma {:induction false} ItemsAgree(s: State, items: seq<Item>, clean: bool, p: Source, port: string)
    requires Agrees(s)
    ensures Agrees(ApplyItems(s, items, clean, p, port))
    decreases |items|
  {
    hide SameIgnoringCase, Values, Rerunnable;
    if items != [] {
      assert Rerunnable(Set(s, ATTR_inter, port).attrib) == Rerunnable(s.attrib) by {
        SameRerunnable(s.attrib, Attr(ATTR_inter, port));
      }
      var t := Set(s, ATTR_inter, port).(interactOpt := p);
      ValuesAppend(s.attrib, Attr(ATTR_inter, port), ATTR_J);
      ValuesAppend(s.attrib, Attr(ATTR_inter, port), ATTR_inter);
      ItemsAgree(s, items[1..], clean, p, port);
      ItemsAgree(t, items[1..], clean, p, port);
      ItemsAgree(s.(blockOpt := p), items[1..], clean, p, port);
    }
  }

  lemma {:induction false} ReplaceKeeps(attrib: seq<Attr>, name: string, value: string, other: string)
    requires other != name
    ensures Values(Replace(attrib, name, value), other) == Values(attrib, other)
  {
    if attrib != [] {
      var n := |attrib| - 1;
      ReplaceKeeps(attrib[..n], name, value, other);
      var a := if attrib[n].name == name then Attr(name, value) else attrib[n];
      ValuesAppend(Replace(attrib[..n], name, value), a, other);
    }
  }

  /** Any option but -W keeps the agreement. */
  lemma {:induction false} OptionAgrees(s: State, o: Opt, p: Source, site: Site)
    requires Agrees(s) && !o.Extra?
    ensures Agrees(Apply(s, o, p, site))
  {
    hide ApplyItems, Values, Replace, Has, Expand;
    var a := match o
      case Name(arg) => Attr(ATTR_N, arg)
      case Interactive => Attr(ATTR_inter, site.port)
      case Array(arg) => Attr(ATTR_J, arg)
      case Rerun(arg) => Attr(ATTR_r, arg)
      case _ => Attr(ATTR_block, site.port);
    ValuesAppend(s.attrib, a, ATTR_inter);
    ValuesAppend(s.attrib, a, ATTR_J);
    ValuesAppend(s.attrib, a, ATTR_r);
    if o.Name? {
      ReplaceKeeps(s.attrib, ATTR_N, o.arg, ATTR_inter);
      ReplaceKeeps(s.attrib, ATTR_N, o.arg, ATTR_J);
      ReplaceKeeps(s.attrib, ATTR_N, o.arg, ATTR_r);
    }
  }

  /** In one process the attributes agree with the registers after any run. */
  lemma {:induction false} AttributesAgree(s: State, occ: seq<Occurrence>, site: Site)
    requires Agrees(s)
    ensures Agrees(Run(s, occ, site))
  {
    hide Agrees, ApplyItems;
    if occ != [] {
      var n := |occ| - 1;
      AttributesAgree(s, occ[..n], site);
      var t, o := Run(s, occ[..n], site), occ[n].o;
      if o.Extra? {
        ItemsAgree(t, o.items, o.clean, occ[n].p, site.port);
      } else {
        OptionAgrees(t, o, occ[n].p, site);
      }
    }
  }

  // ----- what is accepted, and what is refused -----

  /** The array of the occurrence is accepted: the job is not interactive and can be run again, and no source of higher
      priority has given one. */
  predicate ArrayTaken(s: State, c: Occurrence) {
    !s.gone && c.o.Array? && s.interactOpt == 0 && s.roptarg == 'y' && s.jOpt <= c.p
  }

  /** The ranges of the arrays accepted so far. */
  function ArraysTaken(s: State, occ: seq<Occurrence>, site: Site): seq<string> {
    if occ == [] then []
    else
      var n := |occ| - 1;
      ArraysTaken(s, occ[..n], site) + if ArrayTaken(Run(s, occ[..n], site), occ[n]) then [occ[n].o.arg] else []
  }

  lemma {:induction false} ItemsLeaveArrays(s: State, items: seq<Item>, clean: bool, p: Source, port: string)
    ensures Values(ApplyItems(s, items, clean, p, port).attrib, ATTR_J) == Values(s.attrib, ATTR_J)
    decreases |items|
  {
    hide SameIgnoringCase, Values;
    if items != [] {
      ValuesAppend(s.attrib, Attr(ATTR_inter, port), ATTR_J);
      var t := Set(s, ATTR_inter, port).(interactOpt := p);
      ItemsLeaveArrays(s, items[1..], clean, p, port);
      ItemsLeaveArrays(t, items[1..], clean, p, port);
      ItemsLeaveArrays(s.(blockOpt := p), items[1..], clean, p, port);
    }
  }

  lemma {:induction false} ArrayStep(s: State, c: Occurrence, site: Site)
    ensures Values(Apply(s, c.o, c.p, site).attrib, ATTR_J)
         == Values(s.attrib, ATTR_J) + if ArrayTaken(s, c) then [c.o.arg] else []
  {
    hide ApplyItems, Values, Replace, Has, Expand;
    assert Values(s.attrib, ATTR_J) + [] == Values(s.attrib, ATTR_J);
    match c.o
    case Name(arg) =>
      ValuesAppend(s.attrib, Attr(ATTR_N, arg), ATTR_J);
      ReplaceKeeps(s.attrib, ATTR_N, arg, ATTR_J);
    case Interactive => ValuesAppend(s.attrib, Attr(ATTR_inter, site.port), ATTR_J);
    case Array(arg) => ValuesAppend(s.attrib, Attr(ATTR_J, arg), ATTR_J);
    case Rerun(arg) => ValuesAppend(s.attrib, Attr(ATTR_r, arg), ATTR_J);
    case Extra(items, clean) => ItemsLeaveArrays(s, items, clean, c.p, site.port);
    case Finish => ValuesAppend(s.attrib, Attr(ATTR_block, site.port), ATTR_J);
    case _ =>
  }

  /** After any run the array attributes are the ranges of the accepted arrays, in their order. */
  lemma {:induction false} ArrayValues(s: State, occ: seq<Occurrence>, site: Site)
    ensures Values(Run(s, occ, site).attrib, ATTR_J) == Values(s.attrib, ATTR_J) + ArraysTaken(s, occ, site)
  {
    hide Apply, Values, ArrayTaken;
    if occ == [] {
      assert Values(s.attrib, ATTR_J) + [] == Values(s.attrib, ATTR_J);
    } else {
      var n := |occ| - 1;
      ArrayValues(s, occ[..n], site);
      ArrayStep(Run(s, occ[..n], site), occ[n], site);
    }
  }

  /** The occurrence of -r is accepted: no source of higher priority has given one, and the value is y, or n for a job
      that is no array. */
  predicate RerunTaken(s: State, c: Occurrence) {
    !s.gone && c.o.Rerun? && s.rOpt <= c.p && (c.o.arg == "y" || (c.o.arg == "n" && s.jOpt == 0))
  }

  /** The values of -r accepted so far. */
  function RerunsTaken(s: State, occ: seq<Occurrence>, site: Site): seq<string> {
    if occ == [] then []
    else
      var n := |occ| - 1;
      RerunsTaken(s, occ[..n], site) + if RerunTaken(Run(s, occ[..n], site), occ[n]) then [occ[n].o.arg] else []
  }

  lemma {:induction false} RerunStep(s: State, c: Occurrence, site: Site)
    ensures Values(Apply(s, c.o, c.p, site).attrib, ATTR_r)
         == Values(s.attrib, ATTR_r) + if RerunTaken(s, c) then [c.o.arg] else []
  {
    hide ApplyItems, Values, Replace, Has, Expand;
    assert Values(s.attrib, ATTR_r) + [] == Values(s.attrib, ATTR_r);
    match c.o
    case Name(arg) =>
      ValuesAppend(s.attrib, Attr(ATTR_N, arg), ATTR_r);
      ReplaceKeeps(s.attrib, ATTR_N, arg, ATTR_r);
    case Interactive => ValuesAppend(s.attrib, Attr(ATTR_inter, site.port), ATTR_r);
    case Array(arg) => ValuesAppend(s.attrib, Attr(ATTR_J, arg), ATTR_r);
    case Rerun(arg) => ValuesAppend(s.attrib, Attr(ATTR_r, arg), ATTR_r);
    case Extra(items, clean) => ItemsDo(s, items, clean, c.p, site.port);
    case Finish => ValuesAppend(s.attrib, Attr(ATTR_block, site.port), ATTR_r);
    case _ =>
  }

  /** After any run the rerun attributes are the values accepted, in their order. */
  lemma {:induction false} RerunValues(s: State, occ: seq<Occurrence>, site: Site)
    ensures Values(Run(s, occ, site).attrib, ATTR_r) == Values(s.attrib, ATTR_r) + RerunsTaken(s, occ, site)
  {
    hide Apply, Values, RerunTaken;
    if occ == [] {
      assert Values(s.attrib, ATTR_r) + [] == Values(s.attrib, ATTR_r);
    } else {
      var n := |occ| - 1;
      RerunValues(s, occ[..n], site);
      RerunStep(Run(s, occ[..n], site), occ[n], site);
    }
  }

  /** Every interactive and block attribute carries the port. */
  predicate CarriesPort(attrib: seq<Attr>, port: string) {
    forall i :: 0 <= i < |attrib| && attrib[i].name in {ATTR_inter, ATTR_block} ==> attrib[i].value == port
  }

  lemma {:induction false} ItemsCarryPort(s: State, items: seq<Item>, clean: bool, p: Source, port: string)
    requires CarriesPort(s.attrib, port)
    ensures CarriesPort(ApplyItems(s, items, clean, p, port).attrib, port)
    decreases |items|
  {
    hide SameIgnoringCase;
    if items != [] {
      ItemsCarryPort(s, items[1..], clean, p, port);
      ItemsCarryPort(Set(s, ATTR_inter, port).(interactOpt := p), items[1..], clean, p, port);
      ItemsCarryPort(s.(blockOpt := p), items[1..], clean, p, port);
    }
  }

  /** After any run every interactive and block attribute carries the port that qsub listens on. */
  lemma {:induction false} PortIsGiven(s: State, occ: seq<Occurrence>, site: Site)
    requires CarriesPort(s.attrib, site.port)
    ensures CarriesPort(Run(s, occ, site).attrib, site.port)
  {
    if occ != [] {
      var n := |occ| - 1;
      PortIsGiven(s, occ[..n], site);
      hide ApplyItems, Has, Expand;
      if occ[n].o.Extra? {
        ItemsCarryPort(Run(s, occ[..n], site), occ[n].o.items, occ[n].o.clean, occ[n].p, site.port);
      }
    }
  }

  /** Occurrence i names a variable that is not there, and no occurrence of -v before it has higher priority. */
  predicate Fatal(occ: seq<Occurrence>, i: nat, env: Env) {
    && i < |occ| && occ[i].o.Vars? && Expand(occ[i].o.arg, env) == None
    && forall j :: 0 <= j < i && occ[j].o.Vars? ==> occ[j].p <= occ[i].p
  }

  lemma {:induction false} FatalBefore(occ: seq<Occurrence>, i: nat, env: Env)
    requires i < |occ| - 1
    ensures Fatal(occ, i, env) <==> Fatal(occ[..|occ| - 1], i, env)
  {
  }

  /** An occurrence ends the process if and only if it is a -v that counts and cannot be expanded. */
  lemma {:induction false} GoneStep(s: State, c: Occurrence, site: Site)
    requires !s.gone
    ensures Apply(s, c.o, c.p, site).gone <==> c.o.Vars? && s.vOpt <= c.p && Expand(c.o.arg, site.env) == None
  {
    hide Replace, Has, Expand, ApplyItems;
    if c.o.Extra? {
      ItemsDo(s, c.o.items, c.o.clean, c.p, site.port);
    }
  }

  predicate SomeFatal(occ: seq<Occurrence>, env: Env) {
    exists i: nat :: i < |occ| && Fatal(occ, i, env)
  }

  lemma {:induction false} SomeFatalNext(occ: seq<Occurrence>, env: Env)
    requires occ != []
    ensures SomeFatal(occ, env) <==> SomeFatal(occ[..|occ| - 1], env) || Fatal(occ, |occ| - 1, env)
  {
    var some := occ[..|occ| - 1];
    if i: nat :| Fatal(some, i, env) {
      FatalBefore(occ, i, env);
    }
    if i: nat :| Fatal(occ, i, env) {
      if i < |occ| - 1 {
        FatalBefore(occ, i, env);
      }
    }
    hide Fatal, Expand;
  }

  /** qsub gives up exactly when a -v that no earlier one outranks names a variable that is not there. */
  lemma {:induction false} GivesUp(s: State, occ: seq<Occurrence>, site: Site)
    requires s.vOpt == 0 && !s.gone
    ensures Run(s, occ, site).gone <==> SomeFatal(occ, site.env)
  {
    if occ != [] {
      var n := |occ| - 1;
      var some, before := occ[..n], Run(s, occ[..n], site);
      GivesUp(s, some, site);
      SomeFatalNext(occ, site.env);
      hide Apply, Fatal, SomeFatal, Expand;
      if before.gone {
        StillGone(before, occ[n], site);
      } else {
        GoneStep(before, occ[n], site);
        assert Register(s, KVars) == 0;
        RegisterIsHighest(s, some, KVars, site);
        LastFatal(occ, before.vOpt, site.env);
      }
    }
  }

  lemma {:induction false} StillGone(s: State, c: Occurrence, site: Site)
    requires s.gone
    ensures Apply(s, c.o, c.p, site) == s
  {
  }

  lemma {:induction false} LastFatal(occ: seq<Occurrence>, v: nat, env: Env)
    requires occ != []
    requires var some := occ[..|occ| - 1];
      && (forall i :: 0 <= i < |some| && Is(some[i].o, KVars) ==> some[i].p <= v)
      && (Unused(some, KVars) || exists i :: 0 <= i < |some| && Is(some[i].o, KVars) && some[i].p == v)
      && (Unused(some, KVars) ==> v == 0)
    ensures Fatal(occ, |occ| - 1, env) <==>
            occ[|occ| - 1].o.Vars? && v <= occ[|occ| - 1].p && Expand(occ[|occ| - 1].o.arg, env) == None
  {
    var some := occ[..|occ| - 1];
    assert forall i :: 0 <= i < |some| ==> some[i] == occ[i];
    hide Expand;
  }

  /** The occurrence breaks a rule: an array with interactive or without rerun, or -r with a value other than y or n, or
      n for an array. */
  predicate Refused(s: State, o: Opt, p: Source) {
    match o
    case Interactive => s.jOpt != 0
    case Array(_) => s.interactOpt != 0 || s.roptarg != 'y'
    case Rerun(arg) => s.rOpt <= p && (arg !in {"y", "n"} || (arg == "n" && s.jOpt != 0))
    case _ => false
  }

  /** Short of -W exactly a refused option is an error, and it changes nothing else but the register of -r. */
  lemma {:induction false} RefusedChangesNothing(s: State, o: Opt, p: Source, site: Site)
    requires !s.gone && !o.Extra?
    ensures var t := Apply(s, o, p, site);
            if Refused(s, o, p) then t == s.(errors := s.errors + 1, rOpt := if o.Rerun? then p else s.rOpt)
            else t.errors == s.errors
  {
    hide Replace, Has, Expand;
  }

  predicate ProperValue(item: Item) {
    SameIgnoringCase(item.value, "true") || SameIgnoringCase(item.value, "false")
  }

  lemma {:induction false} LowerIs(c: char)
    ensures 'A' <= c <= 'Z' ==> Lower(c) as int == c as int + 32
    ensures !('A' <= c <= 'Z') ==> Lower(c) == c
  {
  }

  /** The letters of true and false may be capital ones. */
  lemma {:induction false} CaseDoesNotMatter(v: string)
    ensures SameIgnoringCase(v, "true") <==>
            |v| == 4 && v[0] in {'t', 'T'} && v[1] in {'r', 'R'} && v[2] in {'u', 'U'} && v[3] in {'e', 'E'}
    ensures SameIgnoringCase(v, "false") <==>
            |v| == 5 && v[0] in {'f', 'F'} && v[1] in {'a', 'A'} && v[2] in {'l', 'L'} && v[3] in {'s', 'S'} &&
            v[4] in {'e', 'E'}
  {
    forall c: char
      ensures Lower(c) == 't' <==> c in {'t', 'T'}
      ensures Lower(c) == 'r' <==> c in {'r', 'R'}
      ensures Lower(c) == 'u' <==> c in {'u', 'U'}
      ensures Lower(c) == 'e' <==> c in {'e', 'E'}
      ensures Lower(c) == 'f' <==> c in {'f', 'F'}
      ensures Lower(c) == 'a' <==> c in {'a', 'A'}
      ensures Lower(c) == 'l' <==> c in {'l', 'L'}
      ensures Lower(c) == 's' <==> c in {'s', 'S'}
    {
      LowerIs(c);
    }
  }

  /** An argument of -W is at most one error, and none if it can be taken apart, all its values are true or false, and
      the job is not an array. */
  lemma {:induction false} ItemErrors(s: State, items: seq<Item>, clean: bool, p: Source, port: string)
    ensures s.errors <= ApplyItems(s, items, clean, p, port).errors <= s.errors + 1
    ensures clean && s.jOpt == 0 && (forall i :: 0 <= i < |items| ==> ProperValue(items[i])) ==>
              ApplyItems(s, items, clean, p, port).errors == s.errors
    decreases |items|
  {
    hide SameIgnoringCase;
    if items != [] {
      var t := Set(s, ATTR_inter, port).(interactOpt := p);
      assert forall i :: 0 < i < |items| ==> items[i] == items[1..][i - 1];
      ItemErrors(s, items[1..], clean, p, port);
      ItemErrors(t, items[1..], clean, p, port);
      ItemErrors(s.(blockOpt := p), items[1..], clean, p, port);
    }
  }

  // ----- handing over to the background qsub -----

  /** The background qsub takes over attributes and registers, but has a roptarg of its own. */
  function HandedTo(s: State, roptarg: char): State {
    s.(roptarg := roptarg)
  }

  /** An array job can be run again, as far as its attributes say. */
  predicate ArrayReruns(s: State) {
    s.jOpt != 0 ==> Rerunnable(s.attrib) == "y"
  }

  predicate ArrayRerunsAfter(s: State, occ: seq<Occurrence>, site: Site) {
    ArrayReruns(Run(s, occ, site))
  }

  predicate RerunsStay(s: State) {
    ArrayReruns(s) && Rerunnable(s.attrib) in {"y", "n"} && (Rerunnable(s.attrib) == "n" ==> s.roptarg == 'n')
  }

  lemma {:induction false} StepReruns(s: State, o: Opt, p: Source, site: Site)
    requires RerunsStay(s)
    ensures RerunsStay(Apply(s, o, p, site))
  {
    hide ApplyItems, Values, Replace, Has, Expand, Rerunnable;
    match o
    case Name(arg) =>
      SameRerunnable(s.attrib, Attr(ATTR_N, arg));
      RerunnableKept(s.attrib, arg);
    case Interactive => SameRerunnable(s.attrib, Attr(ATTR_inter, site.port));
    case Array(arg) => SameRerunnable(s.attrib, Attr(ATTR_J, arg));
    case Rerun(arg) => SameRerunnable(s.attrib, Attr(ATTR_r, arg));
    case Extra(items, clean) =>
      ItemsDo(s, items, clean, p, site.port);
      ItemsRerun(s, ApplyItems(s, items, clean, p, site.port));
    case Finish => SameRerunnable(s.attrib, Attr(ATTR_block, site.port));
    case _ =>
  }

  lemma {:induction false} RerunnableKept(attrib: seq<Attr>, value: string)
    ensures Rerunnable(Replace(attrib, ATTR_N, value)) == Rerunnable(attrib)
  {
    ReplaceKeeps(attrib, ATTR_N, value, ATTR_r);
  }

  lemma {:induction false} ItemsRerun(s: State, t: State)
    requires OnlyModes(s, t)
    ensures Rerunnable(t.attrib) == Rerunnable(s.attrib) && t.jOpt == s.jOpt && t.roptarg == s.roptarg
  {
  }

  lemma {:induction false} RunReruns(s: State, occ: seq<Occurrence>, site: Site)
    requires RerunsStay(s)
    ensures RerunsStay(Run(s, occ, site))
  {
    hide RerunsStay, Apply;
    if occ != [] {
      var n := |occ| - 1;
      RunReruns(s, occ[..n], site);
      StepReruns(Run(s, occ[..n], site), occ[n].o, occ[n].p, site);
    }
  }

  /** No default option makes an array of a job that was handed over and is not to be run again, iff it is not the
      case that the last -r in front said n and the background qsub's own roptarg is y. */
  lemma {:induction false} HandOverKeepsRerun(s: State, roptarg: char, site: Site)
    requires Agrees(s) && Exclusive(s) && !s.gone && s.interactOpt == 0 && roptarg in {'y', 'n'}
    ensures (forall occ :: ArrayRerunsAfter(HandedTo(s, roptarg), occ, site)) <==>
            !(Rerunnable(s.attrib) == "n" && roptarg == 'y')
  {
    var t := HandedTo(s, roptarg);
    if Rerunnable(s.attrib) == "n" && roptarg == 'y' {
      assert s.jOpt == 0;
      var occ := [Occurrence(Array("1-2"), 1)];  // an array among the server's defaults
      assert occ[..0] == [] && Run(t, occ[..0], site) == t;
      var u := Run(t, occ, site);
      assert u == Apply(t, Array("1-2"), 1, site);
      assert u == Set(t, ATTR_J, "1-2").(jOpt := 1);
      SameRerunnable(t.attrib, Attr(ATTR_J, "1-2"));
      assert !ArrayRerunsAfter(t, occ, site);
    } else {
      forall occ
        ensures ArrayRerunsAfter(t, occ, site)
      {
        RunReruns(t, occ, site);
      }
    }
  }

  // ----- the attributes for block and interactive -----

  /** Where the block attribute is put into the list. */
  predicate AddsBlock(s: State, o: Opt, p: Source) {
    o.Finish? && !s.gone && s.blockOpt == p && s.interactOpt == 0
  }

  /** Where a job becomes interactive. */
  predicate TurnsInteractive(s: State, o: Opt, p: Source, site: Site) {
    s.interactOpt == 0 && Apply(s, o, p, site).interactOpt != 0
  }

  /** The interactive attribute is in the list exactly when the register is set. */
  predicate InteractiveShown(s: State) {
    Values(s.attrib, ATTR_inter) != [] <==> s.interactOpt != 0
  }

  lemma {:induction false} ItemsShow(s: State, items: seq<Item>, clean: bool, p: Source, port: string)
    requires InteractiveShown(s)
    ensures InteractiveShown(ApplyItems(s, items, clean, p, port))
    ensures s.interactOpt != 0 ==> ApplyItems(s, items, clean, p, port).interactOpt != 0
    decreases |items|
  {
    hide SameIgnoringCase, Values;
    if items != [] {
      ValuesAppend(s.attrib, Attr(ATTR_inter, port), ATTR_inter);
      ItemsShow(s, items[1..], clean, p, port);
      ItemsShow(Set(s, ATTR_inter, port).(interactOpt := p), items[1..], clean, p, port);
      ItemsShow(s.(blockOpt := p), items[1..], clean, p, port);
    }
  }

  /** What one occurrence does to the two attributes. */
  lemma {:induction false} StepShows(s: State, o: Opt, p: Source, site: Site)
    requires InteractiveShown(s)
    ensures InteractiveShown(Apply(s, o, p, site))
    ensures s.interactOpt != 0 ==> Apply(s, o, p, site).interactOpt != 0
    ensures Values(Apply(s, o, p, site).attrib, ATTR_block) ==
            Values(s.attrib, ATTR_block) + if AddsBlock(s, o, p) then [site.port] else []
  {
    hide ApplyItems, Values, Replace, Has, Expand;
    var a := match o
      case Name(arg) => Attr(ATTR_N, arg)
      case Interactive => Attr(ATTR_inter, site.port)
      case Array(arg) => Attr(ATTR_J, arg)
      case Rerun(arg) => Attr(ATTR_r, arg)
      case _ => Attr(ATTR_block, site.port);
    ValuesAppend(s.attrib, a, ATTR_inter);
    ValuesAppend(s.attrib, a, ATTR_block);
    if o.Name? {
      ReplaceKeeps(s.attrib, ATTR_N, o.arg, ATTR_inter);
      ReplaceKeeps(s.attrib, ATTR_N, o.arg, ATTR_block);
    } else if o.Extra? {
      ItemsShow(s, o.items, o.clean, p, site.port);
      ItemsDo(s, o.items, o.clean, p, site.port);
    }
  }

  predicate AddsBlockAt(s: State, occ: seq<Occurrence>, site: Site, i: nat) {
    i < |occ| && AddsBlock(Run(s, occ[..i], site), occ[i].o, occ[i].p)
  }

  predicate TurnsInteractiveAt(s: State, occ: seq<Occurrence>, site: Site, i: nat) {
    i < |occ| && TurnsInteractive(Run(s, occ[..i], site), occ[i].o, occ[i].p, site)
  }

  lemma {:induction false} AtPrefix(s: State, occ: seq<Occurrence>, site: Site, i: nat)
    requires i < |occ| - 1
    ensures AddsBlockAt(s, occ[..|occ| - 1], site, i) == AddsBlockAt(s, occ, site, i)
    ensures TurnsInteractiveAt(s, occ[..|occ| - 1], site, i) == TurnsInteractiveAt(s, occ, site, i)
  {
    assert occ[..|occ| - 1][..i] == occ[..i];
  }

  /** The interactive attribute is there if and only if something made the job interactive. */
  lemma {:induction false} InteractiveFromOption(s: State, occ: seq<Occurrence>, site: Site)
    requires s.interactOpt == 0 && Values(s.attrib, ATTR_inter) == []
    ensures InteractiveShown(Run(s, occ, site))
    ensures Run(s, occ, site).interactOpt != 0 <==> exists j :: TurnsInteractiveAt(s, occ, site, j)
  {
    if occ != [] {
      var n := |occ| - 1;
      var some := occ[..n];
      InteractiveFromOption(s, some, site);
      StepShows(Run(s, some, site), occ[n].o, occ[n].p, site);
      assert Run(s, occ, site) == Apply(Run(s, some, site), occ[n].o, occ[n].p, site);
      hide Apply, Values, Run, InteractiveShown;
      if Run(s, some, site).interactOpt != 0 {
        var j :| TurnsInteractiveAt(s, some, site, j);
        AtPrefix(s, occ, site, j);
      } else if Run(s, occ, site).interactOpt != 0 {
        assert TurnsInteractiveAt(s, occ, site, n);
      } else if j :| TurnsInteractiveAt(s, occ, site, j) {
        assert j != n;
        AtPrefix(s, occ, site, j);
      }
    }
  }

  /** The block attribute is there if and only if the end of a source added it. */
  lemma {:induction false} BlockFromFinish(s: State, occ: seq<Occurrence>, site: Site)
    requires s.interactOpt == 0 && Values(s.attrib, ATTR_inter) == [] && Values(s.attrib, ATTR_block) == []
    ensures Values(Run(s, occ, site).attrib, ATTR_block) != [] <==> exists i :: AddsBlockAt(s, occ, site, i)
  {
    if occ != [] {
      var n := |occ| - 1;
      var some := occ[..n];
      BlockFromFinish(s, some, site);
      InteractiveFromOption(s, some, site);
      StepShows(Run(s, some, site), occ[n].o, occ[n].p, site);
      assert Run(s, occ, site) == Apply(Run(s, some, site), occ[n].o, occ[n].p, site);
      hide Apply, Values, Run, InteractiveShown;
      if i :| AddsBlockAt(s, some, site, i) {
        AtPrefix(s, occ, site, i);
      } else if AddsBlockAt(s, occ, site, n) {
      } else if i :| AddsBlockAt(s, occ, site, i) {
        AtPrefix(s, occ, site, i);
      }
    }
  }

  /** Nothing adds the block attribute once the job is interactive. */
  lemma {:induction false} BlockBeforeInteractive(s: State, occ: seq<Occurrence>, site: Site, i: nat, j: nat)
    requires s.interactOpt == 0 && Values(s.attrib, ATTR_inter) == []
    requires AddsBlockAt(s, occ, site, i) && TurnsInteractiveAt(s, occ, site, j)
    ensures i < j
  {
    if j < i {
      InteractiveFromOption(s, occ[..i], site);
      assert occ[..i][..j] == occ[..j];
      assert TurnsInteractiveAt(s, occ[..i], site, j);
    }
  }

  /** Both attributes are in the list at the end of a run, if and only if some end of a source put the block attribute
      there and a later option was accepted that made the job interactive. */
  lemma {:induction false} BothInList(s: State, occ: seq<Occurrence>, site: Site)
    requires s.interactOpt == 0 && Values(s.attrib, ATTR_inter) == [] && Values(s.attrib, ATTR_block) == []
    ensures Values(Run(s, occ, site).attrib, ATTR_block) != [] &&
            Values(Run(s, occ, site).attrib, ATTR_inter) != [] <==>
            exists i, j :: i < j && AddsBlockAt(s, occ, site, i) && TurnsInteractiveAt(s, occ, site, j)
  {
    InteractiveFromOption(s, occ, site);
    BlockFromFinish(s, occ, site);
    forall i, j | AddsBlockAt(s, occ, site, i) && TurnsInteractiveAt(s, occ, site, j)
      ensures i < j
    {
      BlockBeforeInteractive(s, occ, site, i, j);
    }
  }

  /** The registers exclude each other, the attributes need not: block=true from the command line stays in the list
      when the script asks for an interactive job. */
  lemma {:induction false} BlockAttributeStays(s: State, site: Site)
    requires Fresh(s)
    ensures
      var blocked := Apply(Apply(s, Extra([WBlock("true")], true), 3, site), Finish, 3, site);
      var t := Apply(Apply(blocked, Interactive, 2, site), Finish, 2, site);
      Exclusive(t) && t.blockOpt == 0 && t.interactOpt == 2 &&
      Values(t.attrib, ATTR_block) == Values(s.attrib, ATTR_block) + [site.port] && Values(t.attrib, ATTR_inter) != []
  {
    var item := WBlock("true");
    assert [item][1..] == [];
    var given := Apply(s, Extra([item], true), 3, site);
    assert SameIgnoringCase("true", "true");
    assert ApplyItems(s.(blockOpt := 3), [], true, 3, site.port) == s.(blockOpt := 3);
    assert ApplyItems(s, [item], true, 3, site.port) == ApplyItems(s.(blockOpt := 3), [item][1..], true, 3, site.port);
    assert given == s.(blockOpt := 3);
    var blocked := Apply(given, Finish, 3, site);
    assert blocked == Set(given, ATTR_block, site.port);
    ValuesAppend(s.attrib, Attr(ATTR_block, site.port), ATTR_block);
    ValuesAppend(blocked.attrib, Attr(ATTR_inter, site.port), ATTR_block);
    ValuesAppend(blocked.attrib, Attr(ATTR_inter, site.port), ATTR_inter);
  }
}
