/** The options of qsub from the command line, the script and the server's defaults (process_opts,
    src/cmds/qsub.c:2758-3330). */
module Options {
  import opened CText
  import opened EnvText
  import opened JobEnv

  const ATTR_N := "Job_Name"
  const ATTR_inter := "interactive"
  const ATTR_J := "array_indices_submitted"
  const ATTR_r := "Rerunable"
  const ATTR_block := "block"

  /** The priority of a source: 3 for the command line, 2 for the script, 1 for the server's defaults. */
  type Source = p: nat | 1 <= p <= 3 witness 1

  datatype Attr = Attr(name: string, value: string)

  /** One keyword of -W. */
  datatype Item = WInteractive(value: string) | WBlock(value: string)

  /** An occurrence of an option. For -W, clean tells that the argument could be taken apart up to its end.
      Finish is the end of a call of process_opts. */
  datatype Opt =
    | Dest(arg: string) | Prefix(arg: string) | Name(arg: string) | Vars(arg: string)
    | Interactive | Array(arg: string) | Rerun(arg: string) | Extra(items: seq<Item>, clean: bool) | Finish

  datatype State = State(
    qOpt: nat, cOpt: nat, nOpt: nat, vOpt: nat, rOpt: nat, jOpt: nat, interactOpt: nat, blockOpt: nat,
    destination: string, dirPrefix: string, vValue: Option<string>, attrib: seq<Attr>,
    roptarg: char, errors: nat, gone: bool)

  /** The environment, and the port that -I and block give as the attribute's value. */
  datatype Site = Site(env: Env, port: string)

  function Lower(c: char): char {
    if 'A' <= c <= 'Z' then (c as int + 32) as char else c
  }

  /** strcasecmp gives 0. */
  predicate SameIgnoringCase(a: string, b: string) {
    |a| == |b| && forall i :: 0 <= i < |a| ==> Lower(a[i]) == Lower(b[i])
  }

  predicate Has(attrib: seq<Attr>, name: string) {
    exists i :: 0 <= i < |attrib| && attrib[i].name == name
  }

  /** The list where every entry called name has the value. */
  function Replace(attrib: seq<Attr>, name: string, value: string): (r: seq<Attr>)
    ensures |r| == |attrib|
    ensures forall i :: 0 <= i < |r| ==> r[i] == if attrib[i].name == name then Attr(name, value) else attrib[i]
  {
    if attrib == [] then []
    else
      var n := |attrib| - 1;
      Replace(attrib[..n], name, value) + [if attrib[n].name == name then Attr(name, value) else attrib[n]]
  }

  function Expand(arg: string, env: Env): Option<string> {
    ExpandTokens(Tokens(arg), env, "")
  }

  // ----- what one occurrence does -----

  function Failing(s: State): State {
    s.(errors := s.errors + 1)
  }

  function Set(s: State, name: string, value: string): State {
    s.(attrib := s.attrib + [Attr(name, value)])
  }

  /** The keywords of -W. Some end the processing of the whole option. */
  function ApplyItems(s: State, items: seq<Item>, clean: bool, p: Source, port: string): State
    decreases |items|
  {
    if items == [] then (if clean then s else Failing(s))
    else match items[0]
      case WInteractive(value) =>
        if p < s.interactOpt then ApplyItems(s, items[1..], clean, p, port)
        else if s.jOpt != 0 then Failing(s)
        else if !SameIgnoringCase(value, "true") && !SameIgnoringCase(value, "false") then Failing(s)
        else
          var t := if SameIgnoringCase(value, "true") then Set(s, ATTR_inter, port).(interactOpt := p) else s;
          if t.blockOpt != 0 && t.interactOpt != 0 then t.(blockOpt := 0)
          else ApplyItems(t, items[1..], clean, p, port)
      case WBlock(value) =>
        if p < s.blockOpt then ApplyItems(s, items[1..], clean, p, port)
        else if !SameIgnoringCase(value, "true") && !SameIgnoringCase(value, "false") then Failing(s)
        else
          var t := if SameIgnoringCase(value, "true") then s.(blockOpt := p) else s;
          if t.interactOpt != 0 && t.blockOpt == p then t.(blockOpt := 0)
          else ApplyItems(t, items[1..], clean, p, port)
  }

  lemma {:induction false} ItemsEnd(s: State, items: seq<Item>, clean: bool, p: Source, port: string)
    requires items == []
    ensures ApplyItems(s, items, clean, p, port) == if clean then s else Failing(s)
  {
  }

  function Apply(s: State, o: Opt, p: Source, site: Site): State {
    if s.gone then s
    else match o
      case Dest(arg) => if p < s.qOpt then s else s.(qOpt := p, destination := arg)
      case Prefix(arg) => if p < s.cOpt then s else s.(cOpt := p, dirPrefix := arg)
      case Name(arg) =>
        if p < s.nOpt then s
        else if Has(s.attrib, ATTR_N) then s.(nOpt := p, attrib := Replace(s.attrib, ATTR_N, arg))
        else Set(s, ATTR_N, arg).(nOpt := p)
      case Vars(arg) =>
        if p < s.vOpt then s
        else
          var v := Expand(arg, site.env);
          s.(vOpt := p, vValue := v, gone := v == None)
      case Interactive =>
        if s.jOpt != 0 then Failing(s)
        else if p < s.interactOpt then s
        else Set(s, ATTR_inter, site.port).(interactOpt := p, blockOpt := 0)
      case Array(arg) =>
        if s.interactOpt != 0 || s.roptarg != 'y' then Failing(s)
        else if p < s.jOpt then s
        else Set(s, ATTR_J, arg).(jOpt := p)
      case Rerun(arg) =>
        if p < s.rOpt then s
        else
          var t := s.(rOpt := p);
          if arg != "y" && arg != "n" then Failing(t)
          else if arg == "n" && t.jOpt != 0 then Failing(t)
          else Set(t, ATTR_r, arg).(roptarg := arg[0])
      case Extra(items, clean) => ApplyItems(s, items, clean, p, site.port)
      case Finish => if s.blockOpt == p && s.interactOpt == 0 then Set(s, ATTR_block, site.port) else s
  }

  datatype Occurrence = Occurrence(o: Opt, p: Source)

  function Run(s: State, occ: seq<Occurrence>, site: Site): State {
    if occ == [] then s
    else
      var n := |occ| - 1;
      Apply(Run(s, occ[..n], site), occ[n].o, occ[n].p, site)
  }

  /** Nothing has been given yet. */
  predicate Fresh(s: State) {
    && s.qOpt == 0 && s.cOpt == 0 && s.nOpt == 0 && s.vOpt == 0
    && s.rOpt == 0 && s.jOpt == 0 && s.interactOpt == 0 && s.blockOpt == 0
    && s.roptarg == 'y' && !s.gone
  }

  // ----- process_opts -----

  class Registers {
    var qOpt: nat
    var cOpt: nat
    var nOpt: nat
    var vOpt: nat
    var rOpt: nat
    var jOpt: nat
    var interactOpt: nat
    var blockOpt: nat
    var destination: string
    var dirPrefix: string
    var vValue: Option<string>
    var attrib: seq<Attr>
    var roptarg: char
    var errors: nat
    var gone: bool

    function Now(): State
      reads this
    {
      State(qOpt, cOpt, nOpt, vOpt, rOpt, jOpt, interactOpt, blockOpt,
            destination, dirPrefix, vValue, attrib, roptarg, errors, gone)
    }

    method SetAttr(name: string, value: string)
      modifies this`attrib
      ensures attrib == old(attrib) + [Attr(name, value)]
    {
      attrib := attrib + [Attr(name, value)];
    }

    /** get_attr finds an entry with the name. */
    method HasAttr(name: string) returns (found: bool)
      ensures found == Has(attrib, name)
    {
      found := false;
      var i := 0;
      while i < |attrib|
        invariant i <= |attrib| && found == Has(attrib[..i], name)
      {
        assert attrib[..i + 1][..i] == attrib[..i];
        assert attrib[..i + 1][i] == attrib[i];
        if attrib[i].name == name {
          return true;
        }
        i := i + 1;
      }
    }

    /** Gives the value to every entry with the name. */
    method ReplaceAll(name: string, value: string)
      modifies this`attrib
      ensures attrib == Replace(old(attrib), name, value)
    {
      var i := 0;
      while i < |attrib|
        invariant i <= |attrib| == |old(attrib)|
        invariant forall j :: 0 <= j < |attrib| ==>
                    attrib[j] == (if j < i then Replace(old(attrib), name, value)[j] else old(attrib)[j])
      {
        if attrib[i].name == name {
          attrib := attrib[i := Attr(name, value)];
        }
        i := i + 1;
      }
    }

    /** The option -N. */
    method NameOption(arg: string, p: Source, ghost site: Site)
      requires !gone
      modifies this`nOpt, this`attrib
      ensures Now() == Apply(old(Now()), Name(arg), p, site)
    {
      if nOpt <= p {
        nOpt := p;
        var found := HasAttr(ATTR_N);
        if !found {
          SetAttr(ATTR_N, arg);
        } else {
          ReplaceAll(ATTR_N, arg);
        }
      }
    }

    /** The option -r. */
    method RerunOption(arg: string, p: Source, ghost site: Site)
      requires !gone
      modifies this`rOpt, this`attrib, this`roptarg, this`errors
      ensures Now() == Apply(old(Now()), Rerun(arg), p, site)
    {
      if rOpt <= p {
        rOpt := p;
        if |arg| != 1 {
          errors := errors + 1;
        } else if arg[0] != 'y' && arg[0] != 'n' {
          errors := errors + 1;
        } else if arg[0] == 'n' && jOpt != 0 {
          errors := errors + 1;
        } else {
          roptarg := arg[0];
          SetAttr(ATTR_r, arg);
        }
      }
    }

    /** The option -I. */
    method InteractiveOption(p: Source, site: Site)
      requires !gone
      modifies this`interactOpt, this`blockOpt, this`attrib, this`errors
      ensures Now() == Apply(old(Now()), Interactive, p, site)
    {
      if jOpt != 0 {
        errors := errors + 1;
      } else if interactOpt <= p {
        interactOpt := p;
        if blockOpt != 0 {
          blockOpt := 0;
        }
        SetAttr(ATTR_inter, site.port);
      }
    }

    /** The option -J. */
    method ArrayOption(arg: string, p: Source, ghost site: Site)
      requires !gone
      modifies this`jOpt, this`attrib, this`errors
      ensures Now() == Apply(old(Now()), Array(arg), p, site)
    {
      if interactOpt != 0 {
        errors := errors + 1;
      } else if roptarg != 'y' {
        errors := errors + 1;
      } else if jOpt <= p {
        jOpt := p;
        SetAttr(ATTR_J, arg);
      }
    }

    /** The option -W with one keyword, the rest following: whether the loop over the keywords goes on. */
    method ItemOption(item: Item, p: Source, port: string, ghost rest: seq<Item>, ghost clean: bool)
      returns (more: bool)
      requires !gone
      modifies this`interactOpt, this`blockOpt, this`attrib, this`errors
      ensures ApplyItems(old(Now()), [item] + rest, clean, p, port) ==
              if more then ApplyItems(Now(), rest, clean, p, port) else Now()
    {
      hide SameIgnoringCase;
      assert ([item] + rest)[1..] == rest;
      match item
      case WInteractive(value) =>
        if interactOpt <= p {
          if jOpt != 0 {
            errors := errors + 1;
            return false;
          }
          if SameIgnoringCase(value, "true") {
            interactOpt := p;
            SetAttr(ATTR_inter, port);
          } else if SameIgnoringCase(value, "false") {
          } else {
            errors := errors + 1;
            return false;
          }
          if blockOpt != 0 && interactOpt != 0 {
            blockOpt := 0;
            return false;
          }
        }
        return true;
      case WBlock(value) =>
        if blockOpt <= p {
          if SameIgnoringCase(value, "true") {
            blockOpt := p;
          } else if SameIgnoringCase(value, "false") {
          } else {
            errors := errors + 1;
            return false;
          }
          if interactOpt != 0 && blockOpt == p {
            blockOpt := 0;
            return false;
          }
        }
        return true;
    }

    /** The option -W. */
    method ExtraOption(items: seq<Item>, clean: bool, p: Source, port: string)
      requires !gone
      modifies this`interactOpt, this`blockOpt, this`attrib, this`errors
      ensures Now() == ApplyItems(old(Now()), items, clean, p, port)
    {
      ghost var all := ApplyItems(Now(), items, clean, p, port);
      assert items[0..] == items;
      hide ApplyItems;
      var i := 0;
      while i < |items|
        invariant i <= |items| && all == ApplyItems(Now(), items[i..], clean, p, port)
      {
        assert items[i..] == [items[i]] + items[i + 1..];
        var more := ItemOption(items[i], p, port, items[i + 1..], clean);
        if !more {
          return;
        }
        i := i + 1;
      }
      ItemsEnd(Now(), items[i..], clean, p, port);
      if !clean {
        errors := errors + 1;
      }
    }

    /** One turn of the loop over the options, or its end. */
    method Process(o: Opt, p: Source, site: Site)
      modifies this
      ensures Now() == Apply(old(Now()), o, p, site)
    {
      hide ApplyItems, Replace, Has, ExpandTokens, Tokens, Lower, SameIgnoringCase;
      if gone {
        return;
      }
      match o
      case Dest(arg) =>
        if qOpt <= p {
          qOpt, destination := p, arg;
        }
      case Prefix(arg) =>
        if cOpt <= p {
          cOpt, dirPrefix := p, arg;
        }
      case Name(arg) =>
        NameOption(arg, p, site);
      case Vars(arg) =>
        if vOpt <= p {
          vOpt := p;
          vValue := ExpandVarlist(arg, site.env);
          gone := vValue == None;
        }
      case Interactive =>
        InteractiveOption(p, site);
      case Array(arg) =>
        ArrayOption(arg, p, site);
      case Rerun(arg) =>
        RerunOption(arg, p, site);
      case Extra(items, clean) =>
        ExtraOption(items, clean, p, site.port);
      case Finish =>
        if blockOpt == p && interactOpt == 0 {
          SetAttr(ATTR_block, site.port);
        }
    }
  }
}
