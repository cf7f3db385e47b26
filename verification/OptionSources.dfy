/** The options call by call: process_opts is called for the command line, for every directive of the script and for
    the server's defaults (src/cmds/qsub.c:2758-3330, 3643-3660, 4902-4915). */
module OptionSources {
  import opened Options
  import opened OptionRules

  /** One call of process_opts. */
  datatype Call = Call(opts: seq<Opt>, p: Source)

  function RunOpts(s: State, opts: seq<Opt>, p: Source, site: Site): State {
    if opts == [] then s else Apply(RunOpts(s, opts[..|opts| - 1], p, site), opts[|opts| - 1], p, site)
  }

  function RunCalls(s: State, calls: seq<Call>, site: Site): State {
    if calls == [] then s
    else
      var c := calls[|calls| - 1];
      Apply(RunOpts(RunCalls(s, calls[..|calls| - 1], site), c.opts, c.p, site), Finish, c.p, site)
  }

  predicate IsTrue(value: string) {
    SameIgnoringCase(value, "true")
  }

  predicate ItemAsksBlock(item: Item) {
    item.WBlock? && IsTrue(item.value)
  }

  predicate ItemAsksInteractive(item: Item) {
    item.WInteractive? && IsTrue(item.value)
  }

  predicate OptAsksBlock(o: Opt) {
    o.Extra? && exists i :: 0 <= i < |o.items| && ItemAsksBlock(o.items[i])
  }

  predicate OptAsksInteractive(o: Opt) {
    o.Interactive? || (o.Extra? && exists i :: 0 <= i < |o.items| && ItemAsksInteractive(o.items[i]))
  }

  predicate AsksBlock(c: Call) {
    exists i :: 0 <= i < |c.opts| && OptAsksBlock(c.opts[i])
  }

  predicate AsksInteractive(c: Call) {
    exists i :: 0 <= i < |c.opts| && OptAsksInteractive(c.opts[i])
  }

  /** true or false, in any case. */
  predicate Proper(item: Item) {
    IsTrue(item.value) || SameIgnoringCase(item.value, "false")
  }

  /** No array, and every value of interactive and block is true or false. */
  predicate Plain(o: Opt) {
    !o.Finish? && !o.Array? && (o.Extra? ==> forall i :: 0 <= i < |o.items| ==> Proper(o.items[i]))
  }

  predicate PlainCall(c: Call) {
    forall i :: 0 <= i < |c.opts| ==> Plain(c.opts[i])
  }

  lemma {:induction false} FirstItem(items: seq<Item>, clean: bool)
    requires items != []
    ensures OptAsksBlock(Extra(items, clean)) <==> ItemAsksBlock(items[0]) || OptAsksBlock(Extra(items[1..], clean))
    ensures OptAsksInteractive(Extra(items, clean)) <==>
            ItemAsksInteractive(items[0]) || OptAsksInteractive(Extra(items[1..], clean))
  {
    var rest := items[1..];
    assert forall i :: 1 <= i < |items| ==> items[i] == rest[i - 1];
    assert forall i :: 0 <= i < |rest| ==> rest[i] == items[i + 1];
  }

  lemma {:induction false} StepShowsBlock(s: State, o: Opt, p: Source, site: Site)
    requires !o.Extra? && !o.Finish?
    ensures Values(Apply(s, o, p, site).attrib, ATTR_block) == Values(s.attrib, ATTR_block)
  {
    hide Values, Replace, Has, Expand;
    match o
    case Name(arg) =>
      ValuesAppend(s.attrib, Attr(ATTR_N, arg), ATTR_block);
      ReplaceKeeps(s.attrib, ATTR_N, arg, ATTR_block);
    case Interactive => ValuesAppend(s.attrib, Attr(ATTR_inter, site.port), ATTR_block);
    case Array(arg) => ValuesAppend(s.attrib, Attr(ATTR_J, arg), ATTR_block);
    case Rerun(arg) => ValuesAppend(s.attrib, Attr(ATTR_r, arg), ATTR_block);
    case _ =>
  }

  lemma {:induction false} LastOpt(opts: seq<Opt>, p: Source)
    requires opts != []
    ensures
      var n := |opts| - 1;
      && (AsksBlock(Call(opts, p)) <==> AsksBlock(Call(opts[..n], p)) || OptAsksBlock(opts[n]))
      && (AsksInteractive(Call(opts, p)) <==> AsksInteractive(Call(opts[..n], p)) || OptAsksInteractive(opts[n]))
  {
    var n := |opts| - 1;
    assert forall i :: 0 <= i < n ==> opts[..n][i] == opts[i];
    hide OptAsksBlock, OptAsksInteractive;
  }

  // ----- all calls -----

  predicate SomeInteractive(calls: seq<Call>) {
    exists d :: 0 <= d < |calls| && AsksInteractive(calls[d])
  }

  /** Call c asks for block, and neither it nor a call before it for interactive. */
  predicate BlockFirst(calls: seq<Call>, c: nat) {
    c < |calls| && AsksBlock(calls[c]) && forall e :: 0 <= e <= c ==> !AsksInteractive(calls[e])
  }

  predicate SomeBlockFirst(calls: seq<Call>) {
    exists c :: 0 <= c < |calls| && BlockFirst(calls, c)
  }

  lemma {:induction false} LastCall(calls: seq<Call>)
    requires calls != []
    ensures
      var n := |calls| - 1;
      && (SomeInteractive(calls) <==> SomeInteractive(calls[..n]) || AsksInteractive(calls[n]))
      && (SomeBlockFirst(calls) <==> SomeBlockFirst(calls[..n]) || (AsksBlock(calls[n]) && !SomeInteractive(calls)))
  {
    var n := |calls| - 1;
    var some := calls[..n];
    assert forall i :: 0 <= i < n ==> some[i] == calls[i];
    hide AsksBlock, AsksInteractive;
    assert AsksBlock(calls[n]) && !SomeInteractive(calls) ==> BlockFirst(calls, n);
    if c :| 0 <= c < |some| && BlockFirst(some, c) {
      assert BlockFirst(calls, c);
    } else if c :| 0 <= c < |calls| && BlockFirst(calls, c) {
      assert c < n ==> BlockFirst(some, c);
    }
  }

  lemma {:induction false} StaysGone(s: State, opts: seq<Opt>, p: Source, site: Site)
    ensures s.gone ==> RunOpts(s, opts, p, site).gone
  {
    if opts != [] {
      StaysGone(s, opts[..|opts| - 1], p, site);
    }
  }

  lemma {:induction false} CallsShow(s: State, calls: seq<Call>, site: Site)
    requires InteractiveShown(s)
    ensures InteractiveShown(RunCalls(s, calls, site))
  {
    if calls != [] {
      var n := |calls| - 1;
      var c := calls[n];
      CallsShow(s, calls[..n], site);
      OptsShow(RunCalls(s, calls[..n], site), c.opts, c.p, site);
      StepShows(RunOpts(RunCalls(s, calls[..n], site), c.opts, c.p, site), Finish, c.p, site);
      hide InteractiveShown, Apply;
    }
  }

  lemma {:induction false} OptsShow(s: State, opts: seq<Opt>, p: Source, site: Site)
    requires InteractiveShown(s)
    ensures InteractiveShown(RunOpts(s, opts, p, site))
  {
    hide InteractiveShown, Apply;
    if opts != [] {
      var n := |opts| - 1;
      OptsShow(s, opts[..n], p, site);
      StepShows(RunOpts(s, opts[..n], p, site), opts[n], p, site);
    }
  }

  // ----- any calls -----

  /** What has been heard so far: the source that block is for, whether a call has ended with it, and the last -r; or it
      is settled by an array or by interactive whether both attributes will be there. */
  datatype Heard = Listening(block: nat, listed: bool, rOpt: nat, again: bool) | Settled(both: bool)

  /** The keywords of -W up to interactive, or to one that ends the option: whether interactive is heard, and block. */
  function HearItems(items: seq<Item>, p: Source, block: nat): (bool, nat) {
    if items == [] then (false, block)
    else
      var rest := items[1..];
      match items[0]
      case WInteractive(_) =>
        if IsTrue(items[0].value) then (true, block)
        else if Proper(items[0]) then HearItems(rest, p, block) else (false, block)
      case WBlock(_) =>
        if p < block then HearItems(rest, p, block)
        else if IsTrue(items[0].value) then HearItems(rest, p, p)
        else if Proper(items[0]) then HearItems(rest, p, block) else (false, block)
  }

  function HearOpt(h: Heard, o: Opt, p: Source): Heard {
    if h.Settled? then h
    else match o
      case Interactive => Settled(h.listed)
      case Array(_) => if h.again then Settled(false) else h
      case Rerun(arg) => if p < h.rOpt then h else h.(rOpt := p, again := arg == "y" || (arg != "n" && h.again))
      case Extra(items, _) =>
        var (interactive, block) := HearItems(items, p, h.block);
        if interactive then Settled(h.listed) else h.(block := block)
      case Finish => h.(listed := h.block != 0)
      case _ => h
  }

  function HearOpts(h: Heard, opts: seq<Opt>, p: Source): Heard {
    if opts == [] then h else HearOpt(HearOpts(h, opts[..|opts| - 1], p), opts[|opts| - 1], p)
  }

  function HearCalls(h: Heard, calls: seq<Call>): Heard {
    if calls == [] then h
    else
      var c := calls[|calls| - 1];
      HearOpt(HearOpts(HearCalls(h, calls[..|calls| - 1]), c.opts, c.p), Finish, c.p)
  }

  /** What was heard is what the state says. */
  predicate Fits(s: State, h: Heard) {
    match h
    case Listening(block, listed, rOpt, again) =>
      && s.jOpt == 0 && s.interactOpt == 0 && s.blockOpt == block && s.rOpt == rOpt && (s.roptarg == 'y' <==> again)
      && (Values(s.attrib, ATTR_block) != [] <==> listed) && (listed ==> block != 0)
    case Settled(both) =>
      if s.jOpt == 0 then s.interactOpt != 0 && (Values(s.attrib, ATTR_block) != [] <==> both)
      else s.interactOpt == 0 && !both
  }

  /** In a call from source p, block is either in the list already or for this source. */
  predicate InCall(h: Heard, p: Source) {
    h.Listening? && h.block != 0 ==> h.listed || h.block == p
  }

  predicate BetweenCalls(h: Heard) {
    h.Listening? ==> (h.block != 0 <==> h.listed)
  }

  predicate Decided(s: State) {
    (s.jOpt == 0) != (s.interactOpt == 0)
  }

  /** Once there is an array or interactive, keywords change neither of these nor the block attribute. */
  lemma {:induction false} ItemsKeep(s: State, items: seq<Item>, clean: bool, p: Source, port: string)
    requires Decided(s)
    ensures
      var t := ApplyItems(s, items, clean, p, port);
      && (t.jOpt == 0 <==> s.jOpt == 0) && (t.interactOpt == 0 <==> s.interactOpt == 0)
      && Values(t.attrib, ATTR_block) == Values(s.attrib, ATTR_block)
    decreases |items|
  {
    hide SameIgnoringCase, Values;
    ValuesAppend(s.attrib, Attr(ATTR_inter, port), ATTR_block);
    if items != [] {
      ItemsKeep(s, items[1..], clean, p, port);
      ItemsKeep(s.(blockOpt := p), items[1..], clean, p, port);
      if s.jOpt == 0 {
        ItemsKeep(Set(s, ATTR_inter, port).(interactOpt := p), items[1..], clean, p, port);
      }
    }
  }

  /** Before that, they do what is heard. */
  lemma {:induction false} ItemsHeard(s: State, items: seq<Item>, clean: bool, p: Source, port: string)
    requires s.jOpt == 0 && s.interactOpt == 0
    ensures
      var t := ApplyItems(s, items, clean, p, port);
      var (interactive, block) := HearItems(items, p, s.blockOpt);
      && t.jOpt == 0 && t.rOpt == s.rOpt && t.roptarg == s.roptarg && (interactive <==> t.interactOpt != 0)
      && (!interactive ==> t.blockOpt == block) && Values(t.attrib, ATTR_block) == Values(s.attrib, ATTR_block)
    decreases |items|
  {
    hide SameIgnoringCase, Values;
    ValuesAppend(s.attrib, Attr(ATTR_inter, port), ATTR_block);
    if items != [] {
      ItemsHeard(s, items[1..], clean, p, port);
      ItemsHeard(s.(blockOpt := p), items[1..], clean, p, port);
      ItemsKeep(Set(s, ATTR_inter, port).(interactOpt := p), items[1..], clean, p, port);
      ItemsRest(Set(s, ATTR_inter, port).(interactOpt := p), items[1..], clean, p, port);
    }
  }

  lemma {:induction false} ItemsRest(s: State, items: seq<Item>, clean: bool, p: Source, port: string)
    ensures
      var t := ApplyItems(s, items, clean, p, port);
      t.rOpt == s.rOpt && t.roptarg == s.roptarg
    decreases |items|
  {
    hide SameIgnoringCase;
    if items != [] {
      ItemsRest(s, items[1..], clean, p, port);
      ItemsRest(s.(blockOpt := p), items[1..], clean, p, port);
      ItemsRest(Set(s, ATTR_inter, port).(interactOpt := p), items[1..], clean, p, port);
    }
  }

  lemma {:induction false} HeardFor(items: seq<Item>, p: Source, block: nat)
    ensures HearItems(items, p, block).1 in {block, p}
  {
    if items != [] {
      HeardFor(items[1..], p, block);
      HeardFor(items[1..], p, p);
    }
  }

  lemma {:induction false} OptHeard(s: State, h: Heard, o: Opt, p: Source, site: Site)
    requires Fits(s, h) && InCall(h, p) && !o.Finish? && !s.gone
    ensures Fits(Apply(s, o, p, site), HearOpt(h, o, p)) && InCall(HearOpt(h, o, p), p)
  {
    hide Values, ApplyItems, HearItems, Expand, Has, Replace;
    if o.Extra? {
      if h.Listening? {
        ItemsHeard(s, o.items, o.clean, p, site.port);
        HeardFor(o.items, p, h.block);
      } else {
        ItemsKeep(s, o.items, o.clean, p, site.port);
      }
    } else {
      StepShowsBlock(s, o, p, site);
      RegistersHeard(s, h, o, p, site);
    }
  }

  lemma {:induction false} RegistersHeard(s: State, h: Heard, o: Opt, p: Source, site: Site)
    requires Fits(s, h) && InCall(h, p) && !o.Finish? && !o.Extra? && !s.gone
    requires Values(Apply(s, o, p, site).attrib, ATTR_block) == Values(s.attrib, ATTR_block)
    ensures Fits(Apply(s, o, p, site), HearOpt(h, o, p)) && InCall(HearOpt(h, o, p), p)
  {
    hide Values, Expand, Has, Replace;
    match o
    case Rerun(arg) => assert arg == "y" ==> arg[0] == 'y';
    case _ =>
  }

  lemma {:induction false} FinishHeard(s: State, h: Heard, p: Source, site: Site)
    requires Fits(s, h) && InCall(h, p) && !s.gone
    ensures Fits(Apply(s, Finish, p, site), HearOpt(h, Finish, p)) && BetweenCalls(HearOpt(h, Finish, p))
  {
    ValuesAppend(s.attrib, Attr(ATTR_block, site.port), ATTR_block);
    hide Values;
  }

  lemma {:induction false} OptsHeard(s: State, h: Heard, opts: seq<Opt>, p: Source, site: Site)
    requires Fits(s, h) && BetweenCalls(h) && (forall i :: 0 <= i < |opts| ==> !opts[i].Finish?)
    requires !RunOpts(s, opts, p, site).gone
    ensures Fits(RunOpts(s, opts, p, site), HearOpts(h, opts, p)) && InCall(HearOpts(h, opts, p), p)
  {
    if opts != [] {
      var n := |opts| - 1;
      var t := RunOpts(s, opts[..n], p, site);
      assert !opts[n].Finish? && forall i :: 0 <= i < n ==> opts[..n][i] == opts[i];
      assert RunOpts(s, opts, p, site) == Apply(t, opts[n], p, site) && !t.gone;
      assert HearOpts(h, opts, p) == HearOpt(HearOpts(h, opts[..n], p), opts[n], p);
      hide RunOpts, Apply, HearOpts, HearOpt, Fits, InCall;
      OptsHeard(s, h, opts[..n], p, site);
      OptHeard(t, HearOpts(h, opts[..n], p), opts[n], p, site);
    }
  }

  lemma {:induction false} CallsHeard(s: State, h: Heard, calls: seq<Call>, site: Site)
    requires Fits(s, h) && BetweenCalls(h) && !RunCalls(s, calls, site).gone
    requires forall c, i :: 0 <= c < |calls| && 0 <= i < |calls[c].opts| ==> !calls[c].opts[i].Finish?
    ensures Fits(RunCalls(s, calls, site), HearCalls(h, calls)) && BetweenCalls(HearCalls(h, calls))
  {
    if calls != [] {
      var n := |calls| - 1;
      var some, c := calls[..n], calls[n];
      assert forall d, i :: 0 <= d < n && 0 <= i < |some[d].opts| ==> !calls[d].opts[i].Finish?;
      var t, k := RunCalls(s, some, site), HearCalls(h, some);
      var u := RunOpts(t, c.opts, c.p, site);
      assert RunCalls(s, calls, site) == Apply(u, Finish, c.p, site) && !u.gone;
      hide RunCalls, RunOpts, Apply, HearOpts, HearOpt, Fits, InCall, BetweenCalls;
      StaysGone(t, c.opts, c.p, site);
      CallsHeard(s, h, some, site);
      OptsHeard(t, k, c.opts, c.p, site);
      FinishHeard(u, HearOpts(k, c.opts, c.p), c.p, site);
    }
  }

  /** Over any calls a job ends with both attributes, if and only if the first -J with which an array could be made or
      request for interactive is one for interactive, and a call in front of it has ended with block asked for. -r n
      keeps a -J from making an array, and a keyword of -W with a wrong value ends the option. */
  lemma {:induction false} BothFromSources(s: State, calls: seq<Call>, site: Site)
    requires s.jOpt == 0 && s.interactOpt == 0 && s.blockOpt == 0
    requires Values(s.attrib, ATTR_block) == [] && Values(s.attrib, ATTR_inter) == []
    requires forall c, i :: 0 <= c < |calls| && 0 <= i < |calls[c].opts| ==> !calls[c].opts[i].Finish?
    requires !RunCalls(s, calls, site).gone
    ensures
      var t := RunCalls(s, calls, site);
      Values(t.attrib, ATTR_block) != [] && Values(t.attrib, ATTR_inter) != [] <==>
      HearCalls(Listening(0, false, s.rOpt, s.roptarg == 'y'), calls) == Settled(true)
  {
    CallsHeard(s, Listening(0, false, s.rOpt, s.roptarg == 'y'), calls, site);
    CallsShow(s, calls, site);
    hide RunCalls, HearCalls, Values;
  }

  // ----- calls without -J and with proper values -----

  lemma {:induction false} ItemsPlainly(items: seq<Item>, clean: bool, p: Source, block: nat)
    requires forall i :: 0 <= i < |items| ==> Proper(items[i])
    ensures
      var (interactive, b) := HearItems(items, p, block);
      var o := Extra(items, clean);
      && (interactive <==> OptAsksInteractive(o))
      && (!interactive ==> (b != 0 <==> block != 0 || OptAsksBlock(o)))
  {
    if items != [] {
      assert forall i :: 0 <= i < |items| - 1 ==> items[1..][i] == items[i + 1];
      FirstItem(items, clean);
      hide OptAsksInteractive, OptAsksBlock, IsTrue;
      ItemsPlainly(items[1..], clean, p, block);
      ItemsPlainly(items[1..], clean, p, p);
    } else {
      assert !OptAsksInteractive(Extra(items, clean)) && !OptAsksBlock(Extra(items, clean));
    }
  }

  lemma {:induction false} OptPlainly(h: Heard, o: Opt, p: Source)
    requires h.Listening? && Plain(o)
    ensures
      var k := HearOpt(h, o, p);
      if OptAsksInteractive(o) then k == Settled(h.listed)
      else k.Listening? && k.listed == h.listed && (k.block != 0 <==> h.block != 0 || OptAsksBlock(o))
  {
    if o.Extra? {
      ItemsPlainly(o.items, o.clean, p, h.block);
    }
    hide HearItems;
  }

  lemma {:induction false} OptsPlainly(h: Heard, opts: seq<Opt>, p: Source)
    requires h.Listening? && PlainCall(Call(opts, p))
    ensures
      var k, c := HearOpts(h, opts, p), Call(opts, p);
      if AsksInteractive(c) then k == Settled(h.listed)
      else k.Listening? && k.listed == h.listed && (k.block != 0 <==> h.block != 0 || AsksBlock(c))
  {
    if opts != [] {
      var n := |opts| - 1;
      assert Plain(opts[n]) && PlainCall(Call(opts[..n], p)) by {
        assert forall i :: 0 <= i < n ==> opts[..n][i] == opts[i];
      }
      LastOpt(opts, p);
      OptsPlainly(h, opts[..n], p);
      var k := HearOpts(h, opts[..n], p);
      assert HearOpts(h, opts, p) == HearOpt(k, opts[n], p);
      if k.Listening? {
        OptPlainly(k, opts[n], p);
      }
      hide AsksInteractive, AsksBlock, OptAsksInteractive, OptAsksBlock, Plain, PlainCall, HearOpts;
    }
  }

  /** For such calls what is heard can be said without listening to one after the other. */
  lemma {:induction false} CallsPlainly(rOpt: nat, again: bool, calls: seq<Call>)
    requires forall c :: 0 <= c < |calls| ==> PlainCall(calls[c])
    ensures
      var h := HearCalls(Listening(0, false, rOpt, again), calls);
      if SomeInteractive(calls) then h == Settled(SomeBlockFirst(calls))
      else h.Listening? && (h.listed <==> SomeBlockFirst(calls)) && (h.block != 0 <==> h.listed)
  {
    if calls != [] {
      var n := |calls| - 1;
      var some, c := calls[..n], calls[n];
      assert PlainCall(c) && forall i :: 0 <= i < n ==> some[i] == calls[i];
      LastCall(calls);
      var h := HearCalls(Listening(0, false, rOpt, again), some);
      assert HearCalls(Listening(0, false, rOpt, again), calls) == HearOpt(HearOpts(h, c.opts, c.p), Finish, c.p);
      hide SomeInteractive, SomeBlockFirst, AsksInteractive, AsksBlock, PlainCall, HearCalls;
      CallsPlainly(rOpt, again, some);
      if h.Listening? {
        OptsPlainly(h, c.opts, c.p);
      } else {
        SettledStays(h, c.opts, c.p);
      }
      hide HearOpts;
    }
  }

  lemma {:induction false} SettledStays(h: Heard, opts: seq<Opt>, p: Source)
    requires h.Settled?
    ensures HearOpts(h, opts, p) == h
  {
    if opts != [] {
      SettledStays(h, opts[..|opts| - 1], p);
    }
  }

  /** Without arrays and with proper values a job ends with both attributes, if and only if some source asks for block
      in a call before the first that asks for interactive, and some call does ask for interactive. The priorities of
      the calls play no part. */
  lemma {:induction false} BothWithoutArrays(s: State, calls: seq<Call>, site: Site)
    requires s.jOpt == 0 && s.interactOpt == 0 && s.blockOpt == 0
    requires Values(s.attrib, ATTR_block) == [] && Values(s.attrib, ATTR_inter) == []
    requires (forall c :: 0 <= c < |calls| ==> PlainCall(calls[c])) && !RunCalls(s, calls, site).gone
    ensures
      var t := RunCalls(s, calls, site);
      Values(t.attrib, ATTR_block) != [] && Values(t.attrib, ATTR_inter) != [] <==>
      SomeBlockFirst(calls) && SomeInteractive(calls)
  {
    forall c, i | 0 <= c < |calls| && 0 <= i < |calls[c].opts|
      ensures !calls[c].opts[i].Finish?
    {
      assert PlainCall(calls[c]) && Plain(calls[c].opts[i]);
    }
    BothFromSources(s, calls, site);
    CallsPlainly(s.rOpt, s.roptarg == 'y', calls);
    hide RunCalls, HearCalls, Values, SomeInteractive, SomeBlockFirst, PlainCall;
  }
}
