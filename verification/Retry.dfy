/** Submitting again with new default arguments (do_submit2, src/cmds/qsub.c:4988-5133, 5197-5271). */
module Retry {
  import opened CText

  datatype Attr = Attr(name: string, resource: Option<string>, value: string)

  const PBSE_PROTOCOL: int := 15031
  const PBSE_FORCE_QSUB_UPDATE: int := 15160

  /** The globals that an attempt works on. An empty attribute list is a null pointer. */
  datatype Globals = Globals(
    attrib: seq<Attr>, vValue: Option<string>, opts: seq<int>,  // saved and restored
    rOpt: int, destination: string)                              // R_opt and destination are not

  /** What the server, or a failure before reaching it, made of one attempt, and what it left in the globals. */
  datatype Outcome = Outcome(verdict: Verdict, after: Globals) {
    /** The return code of do_submit. */
    function Rc(): int {
      match verdict
      case Accepted => 0
      case UpdateFirst => PBSE_FORCE_QSUB_UPDATE
      case Failed(rc) => rc
    }

    predicate Valid() {
      (verdict.Failed? ==> verdict.rc != 0 && verdict.rc != PBSE_FORCE_QSUB_UPDATE) && |after.opts| == 35
    }
  }

  datatype Verdict = Accepted | UpdateFirst | Failed(rc: int)

  /** dup_attrl: the same entries in the same order. */
  method DupAttrl(attrib: seq<Attr>) returns (copy: seq<Attr>)
    ensures copy == attrib
  {
    copy := [];
    var i := 0;
    while i < |attrib|
      invariant 0 <= i <= |attrib| && copy == attrib[..i]
    {
      var a := attrib[i];
      if a.resource.Some? {
        copy := copy + [Attr(a.name, a.resource, a.value)];
      } else {
        copy := copy + [Attr(a.name, None, a.value)];
      }
      i := i + 1;
    }
  }

  // ----- what the attempts are, for the server's verdicts in the order of asking -----

  /** The number of attempts, when the first k asked for an update. */
  function AttemptsFrom(out: seq<Outcome>, k: nat): (n: nat)
    requires |out| == 6 && k < 6
    ensures k < n <= 6
    decreases 6 - k
  {
    if k < 5 && out[k].verdict.UpdateFirst? then AttemptsFrom(out, k + 1) else k + 1
  }

  function Attempts(out: seq<Outcome>): nat
    requires |out| == 6
  {
    AttemptsFrom(out, 0)
  }

  /** What do_submit2 returns. */
  function Result(out: seq<Outcome>): int
    requires |out| == 6
  {
    var n := Attempts(out);
    if n == 6 then PBSE_PROTOCOL else out[n - 1].Rc()
  }

  /** The saved copies: those made now, or when there is nothing to copy those of an earlier submission. */
  datatype Copies = Copies(attrib: seq<Attr>, vValue: Option<string>)

  function Save(g: Globals, earlier: Copies): Copies {
    Copies(if g.attrib != [] then g.attrib else earlier.attrib, if g.vValue.Some? then g.vValue else earlier.vValue)
  }

  /** The globals that attempt number k (from 0) starts from. */
  function StartOf(g: Globals, earlier: Copies, out: seq<Outcome>, k: nat): Globals
    requires k <= |out|
  {
    if k == 0 then g
    else
      var c, left := Save(g, earlier), out[k - 1].after;
      left.(attrib := if c.attrib != [] then c.attrib else left.attrib,
            vValue := if c.vValue.Some? then c.vValue else left.vValue,
            opts := g.opts)
  }

  /** The qsub process, as far as do_submit2 is concerned. */
  class Submitter {
    var now: Globals
    var attribO: seq<Attr>
    var vValueO: Option<string>
    var optsO: seq<int>
    /** The globals at the start of each attempt so far. */
    ghost var starts: seq<Globals>

    constructor (g: Globals)
      ensures now == g && attribO == [] && vValueO == None && starts == []
    {
      now, attribO, vValueO, optsO, starts := g, [], None, [], [];
    }

    /** do_submit: works on the globals and gets a verdict. */
    method DoSubmit(o: Outcome) returns (rc: int)
      modifies this`now, this`starts
      ensures rc == o.Rc() && now == o.after && starts == old(starts) + [old(now)]
    {
      starts := starts + [now];
      now := o.after;
      rc := o.Rc();
    }

    /** The copies made before the first attempt. */
    method SaveOriginals()
      requires |now.opts| == 35
      modifies this`attribO, this`vValueO, this`optsO
      ensures Copies(attribO, vValueO) == Save(now, Copies(old(attribO), old(vValueO))) && optsO == now.opts
    {
      if now.attrib != [] {
        attribO := DupAttrl(now.attrib);
      }
      if now.vValue.Some? {
        vValueO := now.vValue;
      }
      optsO := now.opts;
    }

    /** Attribute list, -v string and option registers, as they were. */
    method RestoreOriginals()
      modifies this`now
      ensures now == old(now).(attrib := if attribO != [] then attribO else old(now).attrib,
                               vValue := if vValueO.Some? then vValueO else old(now).vValue,
                               opts := optsO)
    {
      if attribO != [] {
        var copy := DupAttrl(attribO);
        now := now.(attrib := copy);
      }
      if vValueO.Some? {
        now := now.(vValue := vValueO);
      }
      now := now.(opts := optsO);
    }

    /** out holds the verdicts that up to six attempts would get. */
    method DoSubmit2(out: seq<Outcome>) returns (rc: int)
      requires |out| == 6 && forall o <- out :: o.Valid()
      requires starts == [] && |now.opts| == 35
      modifies this
      ensures rc == Result(out)
      ensures |starts| == Attempts(out)
      ensures forall k :: 0 <= k < |starts| ==>
                starts[k] == StartOf(old(now), Copies(old(attribO), old(vValueO)), out, k)
    {
      ghost var g, c := now, Copies(attribO, vValueO);
      SaveOriginals();
      rc := DoSubmit(out[0]);
      var retry := 5;
      while rc == PBSE_FORCE_QSUB_UPDATE && retry > 0
        invariant 0 <= retry <= 5 && |starts| == 6 - retry
        invariant optsO == g.opts && Save(g, c) == Copies(attribO, vValueO)
        invariant rc == out[5 - retry].Rc() && now == out[5 - retry].after
        invariant Attempts(out) == AttemptsFrom(out, 5 - retry)
        invariant forall k :: 0 <= k < |starts| ==> starts[k] == StartOf(g, c, out, k)
      {
        AsksForUpdate(out, 5 - retry);
        RestoreOriginals();
        retry := retry - 1;
        rc := DoSubmit(out[5 - retry]);
      }
      AsksForUpdate(out, 5 - retry);
      if retry == 0 {
        rc := PBSE_PROTOCOL;
      }
    }
  }

  /** The return code says whether an update was asked for. */
  lemma {:induction false} AsksForUpdate(out: seq<Outcome>, k: nat)
    requires |out| == 6 && k < 6 && forall o <- out :: o.Valid()
    ensures out[k].Rc() == PBSE_FORCE_QSUB_UPDATE <==> out[k].verdict.UpdateFirst?
  {
    assert out[k] in out;
  }

  // ----- what this means -----

  /** Two starts agree in everything that is saved. */
  predicate SameStart(a: Globals, b: Globals) {
    a.attrib == b.attrib && a.vValue == b.vValue && a.opts == b.opts
  }

  /**
   * Isolation: whatever earlier attempts do, every attempt starts from the attribute list, the -v string and
   * the option registers of the first one, if and only if there are an attribute list and a -v string.
   */
  lemma {:induction false} RetryIsolation(g: Globals, earlier: Copies)
    ensures (forall out: seq<Outcome>, k: nat :: k <= |out| ==> SameStart(StartOf(g, earlier, out, k), g))
      <==> (g.attrib != [] && g.vValue.Some?)
  {
    if g.attrib == [] || g.vValue.None? {
      var other := Globals([Attr("", None, "")], Some(""), g.opts, 0, "");
      var out := [Outcome(UpdateFirst, other)];
      assert !SameStart(StartOf(g, earlier, out, 1), g);
    }
  }

  /**
   * R_opt and the destination are not saved: with a list and a -v string, all attempts start in the very state of the
   * first one if and only if none that is followed by another has changed these two.
   */
  lemma {:induction false} WholeStateIsolation(g: Globals, earlier: Copies, out: seq<Outcome>)
    requires |out| == 6 && g.attrib != [] && g.vValue.Some?
    ensures (forall k :: 0 <= k < Attempts(out) ==> StartOf(g, earlier, out, k) == g)
      <==> forall k :: 0 <= k < Attempts(out) - 1 ==>
             out[k].after.rOpt == g.rOpt && out[k].after.destination == g.destination
  {
    AttemptsFollowUpdates(out, 0);
    forall k | 0 <= k < Attempts(out) - 1
      ensures StartOf(g, earlier, out, k + 1) == g <==>
              out[k].after.rOpt == g.rOpt && out[k].after.destination == g.destination
    {
    }
  }

  /** No attempt follows one that did not ask for an update, and the last one is the only one that may not. */
  lemma {:induction false} AttemptsFollowUpdates(out: seq<Outcome>, k: nat)
    requires |out| == 6 && k < 6
    ensures forall j :: k <= j < AttemptsFrom(out, k) - 1 ==> out[j].verdict.UpdateFirst?
    ensures AttemptsFrom(out, k) < 6 ==> !out[AttemptsFrom(out, k) - 1].verdict.UpdateFirst?
    decreases 6 - k
  {
    if k < 5 && out[k].verdict.UpdateFirst? {
      AttemptsFollowUpdates(out, k + 1);
    }
  }

  /** The attempts that the server accepts. */
  function Acceptances(out: seq<Outcome>, n: nat): nat
    requires n <= |out|
  {
    if n == 0 then 0 else Acceptances(out, n - 1) + if out[n - 1].verdict.Accepted? then 1 else 0
  }

  lemma {:induction false} NoneAccepted(out: seq<Outcome>, n: nat)
    requires n <= |out| && forall j :: 0 <= j < n ==> out[j].verdict.UpdateFirst?
    ensures Acceptances(out, n) == 0
  {
    if n > 0 {
      NoneAccepted(out, n - 1);
    }
  }

  /**
   * One to six attempts are made and at most one job is accepted; 0 is returned if and only if one was
   * accepted before the sixth attempt. The sixth attempt is reported as PBSE_PROTOCOL even when accepted.
   */
  lemma {:induction false} ResultMeaning(out: seq<Outcome>)
    requires |out| == 6 && forall o <- out :: o.Valid()
    ensures var n := Attempts(out);
            && 1 <= n <= 6
            && Acceptances(out, n) <= 1
            && (Result(out) == 0 <==> Acceptances(out, n) == 1 && n < 6)
            && (n == 6 ==> Result(out) == PBSE_PROTOCOL)
  {
    var n := Attempts(out);
    AttemptsFollowUpdates(out, 0);
    NoneAccepted(out, n - 1);
    assert out[n - 1] in out;
  }

  /** The first attempt that does not ask for an update decides, and its own code is returned unless it is the sixth. */
  lemma {:induction false} FirstVerdictDecides(out: seq<Outcome>, k: nat)
    requires |out| == 6 && k < 6 && forall j :: 0 <= j < k ==> out[j].verdict.UpdateFirst?
    ensures k == 5 ==> Result(out) == PBSE_PROTOCOL && Attempts(out) == 6
    ensures k < 5 && out[k].verdict.Accepted? ==> Result(out) == 0 && Attempts(out) == k + 1
    ensures k < 5 && out[k].verdict.Failed? ==> Result(out) == out[k].verdict.rc && Attempts(out) == k + 1
  {
    StillAsking(out, k);
  }

  lemma {:induction false} StillAsking(out: seq<Outcome>, k: nat)
    requires |out| == 6 && k < 6 && forall j :: 0 <= j < k ==> out[j].verdict.UpdateFirst?
    ensures Attempts(out) == AttemptsFrom(out, k)
  {
    if k > 0 {
      StillAsking(out, k - 1);
    }
  }

  /** Such a job is accepted and reported as a failure. */
  lemma {:induction false} SixthAcceptanceIsReportedAsFailure(g: Globals)
    requires |g.opts| == 35
    ensures exists out: seq<Outcome> :: |out| == 6 && (forall o <- out :: o.Valid())
              && Acceptances(out, Attempts(out)) == 1 && Result(out) == PBSE_PROTOCOL
  {
    var u := Outcome(UpdateFirst, g);
    var out := [u, u, u, u, u, Outcome(Accepted, g)];
    assert AttemptsFrom(out, 4) == 6 && AttemptsFrom(out, 2) == AttemptsFrom(out, 3) == 6;
    assert Attempts(out) == AttemptsFrom(out, 1) == 6;
    NoneAccepted(out, 5);
    assert Acceptances(out, 6) == 1;
  }
}
