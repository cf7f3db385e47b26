/**
 * Foreground and background qsub processes as a step system (src/cmds/qsub.c:5728-5912, 5993-6065,
 * 6078-6099, 6237-6248). Any number of foregrounds, one job each, meet any number of daemons, which
 * serve one connection at a time; every interleaving, and a crash of any process at any step, is a run.
 */
module Submission {
  import opened CText

  /** The nine items of a request: the attribute list, seven strings and the option registers. */
  const ITEMS := 9

  /** What a daemon sends back: the first code, and the message with the code of do_submit2. */
  datatype Msg = Ack | Result

  /** Where a foreground stands in daemon_submit and main. */
  datatype Stage = Checking | Sending | AwaitAck | AwaitResult | Returned | Submitting | Finished

  datatype Foreground = Foreground(
    alive: bool, stage: Stage,
    doRegular: bool,        // do_regular_submit
    conn: Option<nat>,      // the daemon it is connected to
    sent: nat,              // items it has put on the socket
    down: seq<Msg>,         // messages of the daemon on the socket, in order
    accepted: bool,         // the daemon has accepted the connection
    // history
    acked: bool,            // a daemon has sent the first code successfully
    ackLost: bool,          // the read of the first code failed although the peer had not ended the stream
    answered: bool,         // the result has been read
    noServer: bool,         // regular_submit could not connect
    byDaemon: nat,          // times a daemon entered do_submit2 for this job
    byItself: nat)          // times the foreground entered do_submit2

  /** Where a daemon stands in its loop; i is the foreground it serves. */
  datatype Daemon =
    | Idle
    | Receiving(i: nat, n: nat)  // n items received
    | Acking(i: nat)
    | Preparing(i: nat)          // chdir and setenv
    | Replying(i: nat)           // do_submit2 has been entered
    | Gone

  /** faulty: some process crashed, or some call failed. */
  datatype State = State(fgs: seq<Foreground>, dms: seq<Daemon>, faulty: bool) {
    function Fg(i: nat, f: Foreground): State
      requires i < |fgs|
    {
      this.(fgs := fgs[i := f])
    }

    function Dm(d: nat, m: Daemon): State
      requires d < |dms|
    {
      this.(dms := dms[d := m])
    }

    function Fault(): State {
      this.(faulty := true)
    }
  }

  datatype Action =
    // a foreground
    | NoDaemon(i: nat) | Connect(i: nat, d: nat) | Send(i: nat) | SendFails(i: nat)
    | ReadAck(i: nat) | AckEnds(i: nat) | AckFails(i: nat)
    | ReadResult(i: nat) | ResultEnds(i: nat) | ResultFails(i: nat)
    | SubmitItself(i: nat) | CannotConnect(i: nat) | SkipRegular(i: nat) | Finish(i: nat) | FinishAndStay(i: nat)
    | ForegroundDies(i: nat)
    // a daemon
    | Accept(d: nat, i: nat) | Receive(d: nat) | ReceiveFails(d: nat) | SendAck(d: nat) | SendAckFails(d: nat)
    | PrepareFails(d: nat) | SubmitForIt(d: nat) | Reply(d: nat) | ReplyFails(d: nat)
    | IdleExit(d: nat) | DaemonDies(d: nat)

  predicate Up(s: State, i: nat, stage: Stage) {
    i < |s.fgs| && s.fgs[i].alive && s.fgs[i].stage == stage
  }

  /** The stream of the daemon to foreground i has ended. */
  predicate Ended(s: State, i: nat)
    requires i < |s.fgs|
  {
    var f := s.fgs[i];
    f.down == [] && f.conn.Some? && f.conn.value < |s.dms| && s.dms[f.conn.value].Gone?
  }

  predicate Serving(s: State, d: nat) {
    d < |s.dms| && !s.dms[d].Idle? && !s.dms[d].Gone? && s.dms[d].i < |s.fgs|
  }

  predicate Enabled(s: State, a: Action) {
    match a
    case NoDaemon(i) => Up(s, i, Checking)
    case Connect(i, d) => Up(s, i, Checking) && d < |s.dms| && !s.dms[d].Gone?
    case Send(i) => Up(s, i, Sending) && s.fgs[i].sent < ITEMS
    case SendFails(i) => Up(s, i, Sending)
    case ReadAck(i) => Up(s, i, AwaitAck) && s.fgs[i].down != [] && s.fgs[i].down[0] == Ack
    case AckEnds(i) => Up(s, i, AwaitAck) && Ended(s, i)
    case AckFails(i) => Up(s, i, AwaitAck)
    case ReadResult(i) => Up(s, i, AwaitResult) && s.fgs[i].down != [] && s.fgs[i].down[0] == Result
    case ResultEnds(i) => Up(s, i, AwaitResult) && Ended(s, i)
    case ResultFails(i) => Up(s, i, AwaitResult)
    case SubmitItself(i) => Up(s, i, Returned) && s.fgs[i].doRegular
    case CannotConnect(i) => Up(s, i, Returned) && s.fgs[i].doRegular
    case SkipRegular(i) => Up(s, i, Returned) && !s.fgs[i].doRegular
    case Finish(i) => Up(s, i, Submitting)
    case FinishAndStay(i) => Up(s, i, Submitting) && s.fgs[i].conn.None?
    case ForegroundDies(i) => i < |s.fgs|
    case Accept(d, i) =>
      d < |s.dms| && s.dms[d].Idle? && i < |s.fgs| && s.fgs[i].conn == Some(d) && !s.fgs[i].accepted
    case Receive(d) => Serving(s, d) && s.dms[d].Receiving? && s.dms[d].n < s.fgs[s.dms[d].i].sent
    case ReceiveFails(d) => Serving(s, d) && s.dms[d].Receiving?
    case SendAck(d) => Serving(s, d) && s.dms[d].Acking?
    case SendAckFails(d) => Serving(s, d) && s.dms[d].Acking?
    case PrepareFails(d) => Serving(s, d) && s.dms[d].Preparing?
    case SubmitForIt(d) => Serving(s, d) && s.dms[d].Preparing?
    case Reply(d) => Serving(s, d) && s.dms[d].Replying?
    case ReplyFails(d) => Serving(s, d) && s.dms[d].Replying?
    case IdleExit(d) => d < |s.dms| && s.dms[d].Idle?
    case DaemonDies(d) => d < |s.dms|
  }

  /** The effect of a step of a foreground on its own record. */
  function Moved(f: Foreground, a: Action): Foreground {
    match a
    case NoDaemon(_) => f.(stage := Returned)
    case Connect(_, d) => f.(stage := Sending, conn := Some(d))
    case Send(_) => f.(sent := f.sent + 1, stage := if f.sent + 1 == ITEMS then AwaitAck else Sending)
    case SendFails(_) => f.(stage := Returned)
    case ReadAck(_) => f.(doRegular := false, stage := AwaitResult, down := if f.down == [] then [] else f.down[1..])
    case AckEnds(_) => f.(stage := AwaitResult)
    case AckFails(_) => f.(stage := AwaitResult, ackLost := true)
    case ReadResult(_) => f.(stage := Returned, answered := true, down := if f.down == [] then [] else f.down[1..])
    case ResultEnds(_) => f.(stage := Returned)
    case ResultFails(_) => f.(stage := Returned)
    case SubmitItself(_) => f.(stage := Submitting, byItself := f.byItself + 1)
    case CannotConnect(_) => f.(stage := Finished, noServer := true)
    case SkipRegular(_) => f.(stage := Finished)
    case Finish(_) => f.(stage := Finished)
    case FinishAndStay(_) => f.(stage := Finished)
    case ForegroundDies(_) => f.(alive := false)
    case Accept(_, _) => f.(accepted := true)
    case SendAck(_) => f.(acked := true, down := f.down + [Ack])
    case SubmitForIt(_) => f.(byDaemon := f.byDaemon + 1)
    case Reply(_) => f.(down := f.down + [Result])
    case _ => f
  }

  /** The effect of a step of a daemon on itself. */
  function Turned(m: Daemon, a: Action): Daemon {
    match a
    case Accept(_, i) => Receiving(i, 0)
    case Receive(_) =>
      if !m.Receiving? then m else if m.n + 1 == ITEMS then Acking(m.i) else Receiving(m.i, m.n + 1)
    case SendAck(_) => if m.Acking? then Preparing(m.i) else m
    case SubmitForIt(_) => if m.Preparing? then Replying(m.i) else m
    case Reply(_) => Idle
    case _ => Gone
  }

  predicate OfForeground(a: Action) {
    a.NoDaemon? || a.Connect? || a.Send? || a.SendFails? || a.ReadAck? || a.AckEnds? || a.AckFails? || a.ReadResult?
    || a.ResultEnds? || a.ResultFails? || a.SubmitItself? || a.CannotConnect? || a.SkipRegular? || a.Finish?
    || a.FinishAndStay? || a.ForegroundDies?
  }

  /** Steps that are a crash or a failing call. A daemon that stops while idle is neither. */
  predicate IsFault(a: Action) {
    a.SendFails? || a.AckFails? || a.ResultFails? || a.CannotConnect? || a.ForegroundDies? || a.ReceiveFails?
    || a.SendAckFails? || a.PrepareFails? || a.ReplyFails? || a.DaemonDies?
  }

  /** The foreground and the daemon that a step is about. */
  function Job(s: State, a: Action): nat
    requires Enabled(s, a)
  {
    if OfForeground(a) || a.Accept? then a.i
    else if s.dms[a.d].Idle? || s.dms[a.d].Gone? then 0 else s.dms[a.d].i
  }

  function Next(s: State, a: Action): State
    requires Enabled(s, a)
  {
    var j := Job(s, a);
    var t := if j < |s.fgs| then s.Fg(j, Moved(s.fgs[j], a)) else s;
    var u := if OfForeground(a) then (if a.FinishAndStay? then t.(dms := t.dms + [Idle]) else t)
             else t.Dm(a.d, Turned(s.dms[a.d], a));
    if IsFault(a) then u.Fault() else u
  }

  const FRESH := Foreground(true, Checking, true, None, 0, [], false, false, false, false, false, 0, 0)

  /** n foregrounds about to submit, k daemons waiting. */
  function Init(n: nat, k: nat): State {
    State(seq(n, _ => FRESH), seq(k, _ => Idle), false)
  }

  /** The state after the steps, when each of them is possible in turn. */
  function Run(s: State, steps: seq<Action>): Option<State>
    decreases |steps|
  {
    if steps == [] then Some(s)
    else if Enabled(s, steps[0]) then Run(Next(s, steps[0]), steps[1..])
    else None
  }

  // ----- the invariant -----

  /** The job of m is i. */
  predicate For(m: Daemon, i: nat) {
    !m.Idle? && !m.Gone? && m.i == i
  }

  predicate Past(f: Foreground) {
    f.stage in {AwaitResult, Returned, Submitting, Finished}
  }

  /** What a foreground's record says, given the daemon m it is connected to. */
  predicate FgOk(f: Foreground, i: nat, m: Daemon) {
    && f.sent <= ITEMS && (f.conn.None? ==> f.sent == 0 && !f.accepted)
    && (f.acked ==> f.sent == ITEMS && f.accepted)
    && (!f.acked ==> f.down == [])
    && (f.stage == Checking ==> f.conn.None?)
    && (f.stage == Sending ==> f.sent < ITEMS && f.conn.Some?)
    && (f.stage == AwaitAck ==> f.sent == ITEMS && (f.acked ==> f.down != [] && f.down[0] == Ack))
    && (f.doRegular || (Past(f) && f.acked))
    && (f.ackLost ==> Past(f) && f.doRegular)
    && (Past(f) && f.doRegular && !f.ackLost ==> !f.acked && (f.sent < ITEMS || m.Gone?))
    && f.byDaemon <= 1 && (f.byDaemon == 1 ==> f.acked)
    && (f.acked && f.byDaemon == 0 ==> m.Gone? || m == Preparing(i))
    && (f.answered || Result in f.down ==> f.byDaemon == 1)
    && f.byItself <= 1
    && (f.byItself == 1 ==> f.doRegular && f.stage in {Submitting, Finished})
    && (f.noServer ==> f.doRegular && f.stage == Finished && f.byItself == 0)
    && (f.stage == Submitting ==> f.byItself == 1)
    && (f.stage == Finished ==> !f.doRegular || f.noServer || f.byItself == 1)
  }

  /** What a daemon's position says about the foreground it serves. */
  predicate DmOk(m: Daemon, d: nat, f: Foreground) {
    && f.conn == Some(d) && f.accepted
    && match m
       case Receiving(_, n) => n <= f.sent && n < ITEMS && !f.acked
       case Acking(_) => f.sent == ITEMS && !f.acked
       case Preparing(_) => f.acked && f.byDaemon == 0
       case Replying(_) => f.byDaemon == 1
       case _ => true
  }

  function Peer(s: State, i: nat): Daemon
    requires i < |s.fgs|
  {
    var c := s.fgs[i].conn;
    if c.Some? && c.value < |s.dms| then s.dms[c.value] else Idle
  }

  /** The daemon d is free, has stopped, or serves a foreground whose record agrees with it. */
  predicate DaemonOk(s: State, d: nat)
    requires d < |s.dms|
  {
    var m := s.dms[d];
    m.Idle? || m.Gone? || (m.i < |s.fgs| && DmOk(m, d, s.fgs[m.i]))
  }

  predicate ForegroundOk(s: State, i: nat)
    requires i < |s.fgs|
  {
    (s.fgs[i].conn.Some? ==> s.fgs[i].conn.value < |s.dms|) && FgOk(s.fgs[i], i, Peer(s, i))
  }

  predicate Inv(s: State) {
    && (forall i :: 0 <= i < |s.fgs| ==> ForegroundOk(s, i))
    && (forall d :: 0 <= d < |s.dms| ==> DaemonOk(s, d))
  }

  /** The daemon that a step is made by exists. */
  lemma {:induction false} Maker(s: State, a: Action)
    requires Enabled(s, a)
    ensures if OfForeground(a) then a.i < |s.fgs| else a.d < |s.dms|
  {
  }

  lemma {:induction false} NextParts(s: State, a: Action)
    requires Enabled(s, a)
    ensures var j, t := Job(s, a), Next(s, a);
            && (if OfForeground(a) then a.i < |s.fgs| else a.d < |s.dms|)
            && t.fgs == (if j < |s.fgs| then s.fgs[j := Moved(s.fgs[j], a)] else s.fgs)
            && t.dms == (if !OfForeground(a) then s.dms[a.d := Turned(s.dms[a.d], a)]
                         else if a.FinishAndStay? then s.dms + [Idle] else s.dms)
            && t.faulty == (s.faulty || IsFault(a))
  {
    hide Moved, Turned;
    Maker(s, a);
  }

  /** The steps up to the end of the wait for the first code. */
  predicate Early(a: Action) {
    a.NoDaemon? || a.Connect? || a.Send? || a.SendFails? || a.ReadAck? || a.AckEnds? || a.AckFails?
  }

  lemma {:induction false} EarlyMoves(f: Foreground, s: State, a: Action)
    requires Enabled(s, a) && OfForeground(a) && Early(a) && f == s.fgs[a.i] && ForegroundOk(s, a.i)
    ensures FgOk(Moved(f, a), a.i, if a.Connect? then s.dms[a.d] else Peer(s, a.i))
    ensures Moved(f, a).conn == if a.Connect? then Some(a.d) else f.conn
  {
  }

  lemma {:induction false} LateMoves(f: Foreground, s: State, a: Action)
    requires Enabled(s, a) && OfForeground(a) && !Early(a) && f == s.fgs[a.i] && ForegroundOk(s, a.i)
    ensures FgOk(Moved(f, a), a.i, Peer(s, a.i)) && Moved(f, a).conn == f.conn
  {
  }

  /** A step of a foreground keeps its own record in order. */
  lemma {:induction false} ForegroundMoves(s: State, a: Action)
    requires Enabled(s, a) && OfForeground(a) && a.i < |s.fgs| && ForegroundOk(s, a.i)
    ensures a.i < |Next(s, a).fgs| && ForegroundOk(Next(s, a), a.i)
  {
    NextParts(s, a);
    JobOf(s, a);
    if a.Connect? {
      ConnectsTo(s, a);
    }
    if Early(a) {
      EarlyMoves(s.fgs[a.i], s, a);
    } else {
      LateMoves(s.fgs[a.i], s, a);
    }
    hide Next, Moved, Enabled, FgOk, Job;
  }

  lemma {:induction false} ConnectsTo(s: State, a: Action)
    requires Enabled(s, a) && a.Connect?
    ensures a.d < |s.dms|
  {
  }

  /** So does a step of the daemon that serves it. */
  lemma {:induction false} DaemonMoves(s: State, a: Action)
    requires Enabled(s, a) && !OfForeground(a) && a.d < |s.dms| && Job(s, a) < |s.fgs|
    requires ForegroundOk(s, Job(s, a)) && DaemonOk(s, a.d)
    ensures Job(s, a) < |Next(s, a).fgs| && ForegroundOk(Next(s, a), Job(s, a))
  {
    NextParts(s, a);
    hide Next;
    var j, t := Job(s, a), Next(s, a);
    assert Peer(t, j) == if s.fgs[j].conn == Some(a.d) then Turned(s.dms[a.d], a) else Peer(s, j);
  }

  /** The record of a foreground that a step is not about. */
  lemma {:induction false} OthersStay(s: State, a: Action, j: nat)
    requires Enabled(s, a) && j < |s.fgs| && j != Job(s, a) && ForegroundOk(s, j)
    ensures j < |Next(s, a).fgs| && ForegroundOk(Next(s, a), j)
  {
    NextParts(s, a);
    if !OfForeground(a) && s.fgs[j].conn == Some(a.d) {
      TurnedFor(s, a, j);
    }
    hide Next, Enabled, Moved, Turned, Job;
    assert Next(s, a).fgs[j] == s.fgs[j];
  }

  lemma {:induction false} TurnedFor(s: State, a: Action, j: nat)
    requires Enabled(s, a) && !OfForeground(a) && a.d < |s.dms| && j != Job(s, a)
    ensures var m := s.dms[a.d]; m.Gone? || m == Preparing(j) ==> Turned(m, a).Gone?
  {
  }

  /** A daemon, when a foreground makes a step. */
  lemma {:induction false} DaemonStays(s: State, a: Action, d: nat)
    requires Enabled(s, a) && OfForeground(a) && d < |Next(s, a).dms| && (d < |s.dms| ==> DaemonOk(s, d))
    requires a.i < |s.fgs| && ForegroundOk(s, a.i)
    ensures DaemonOk(Next(s, a), d)
  {
    NextParts(s, a);
    MovedKeeps(s, a);
    hide Next, Enabled, Moved;
  }

  /** What a step of the foreground leaves as it is. */
  lemma {:induction false} MovedKeeps(s: State, a: Action)
    requires Enabled(s, a) && OfForeground(a) && a.i < |s.fgs| && ForegroundOk(s, a.i)
    ensures var f := s.fgs[a.i];
            var g := Moved(f, a);
            && (f.conn.Some? ==> g.conn == f.conn) && g.accepted == f.accepted && g.acked == f.acked
            && g.byDaemon == f.byDaemon && f.sent <= g.sent && (f.sent == ITEMS ==> g.sent == ITEMS)
  {
  }

  /** A daemon, when it or another daemon makes a step. */
  lemma {:induction false} DaemonTurns(s: State, a: Action, d: nat)
    requires Enabled(s, a) && !OfForeground(a) && a.d < |s.dms| && d < |s.dms| && DaemonOk(s, d) && DaemonOk(s, a.d)
    requires Job(s, a) < |s.fgs| ==> ForegroundOk(s, Job(s, a))
    ensures d < |Next(s, a).dms| && DaemonOk(Next(s, a), d)
  {
    NextParts(s, a);
    hide Next;
    var j, t := Job(s, a), Next(s, a);
    if d != a.d {
      assert t.dms[d] == s.dms[d];
      assert j < |s.fgs| ==> t.fgs[j].conn == s.fgs[j].conn;
    }
  }

  /** Every step keeps the invariant. */
  lemma {:induction false} StepKeepsInv(s: State, a: Action)
    requires Enabled(s, a) && Inv(s)
    ensures Inv(Next(s, a))
  {
    Maker(s, a);
    NextParts(s, a);
    var t := Next(s, a);
    hide Next, Enabled, Moved, Turned, FgOk, DmOk, Job, ForegroundOk, DaemonOk;
    forall i | 0 <= i < |t.fgs| ensures ForegroundOk(t, i) {
      if i != Job(s, a) {
        OthersStay(s, a, i);
      } else if OfForeground(a) {
        JobOf(s, a);
        ForegroundMoves(s, a);
      } else {
        DaemonMoves(s, a);
      }
    }
    forall d | 0 <= d < |t.dms| ensures DaemonOk(t, d) {
      if OfForeground(a) {
        DaemonStays(s, a, d);
      } else {
        DaemonTurns(s, a, d);
      }
    }
  }

  lemma {:induction false} JobOf(s: State, a: Action)
    requires Enabled(s, a) && OfForeground(a)
    ensures Job(s, a) == a.i
  {
  }

  lemma {:induction false} InitInv(n: nat, k: nat)
    ensures Inv(Init(n, k)) && !Init(n, k).faulty
  {
  }

  lemma {:induction false} RunKeepsInv(s: State, steps: seq<Action>)
    requires Inv(s) && Run(s, steps).Some?
    ensures Inv(Run(s, steps).value)
    decreases |steps|
  {
    hide Next, Enabled;
    if steps != [] {
      StepKeepsInv(s, steps[0]);
      RunKeepsInv(Next(s, steps[0]), steps[1..]);
    }
  }

  // ----- what holds over every run -----

  /** How often do_submit2 was entered for a job. */
  function Entries(f: Foreground): nat {
    f.byDaemon + f.byItself
  }

  /**
   * At most once. Over every run, whatever crashes and fails, the job of a foreground is submitted by a daemon
   * or by itself but not by both, and by neither twice, unless the foreground failed to read the first code
   * although the daemon was there to send it.
   */
  lemma {:induction false} AtMostOnce(n: nat, k: nat, steps: seq<Action>, i: nat)
    requires Run(Init(n, k), steps).Some? && i < |Run(Init(n, k), steps).value.fgs|
    ensures var f := Run(Init(n, k), steps).value.fgs[i];
            f.byDaemon <= 1 && f.byItself <= 1 && (Entries(f) > 1 ==> f.ackLost && f.acked)
  {
    hide Run, Next, Enabled, Init;
    InitInv(n, k);
    RunKeepsInv(Init(n, k), steps);
    assert ForegroundOk(Run(Init(n, k), steps).value, i);
  }

  /**
   * What a finished foreground has come to: it submitted by itself exactly if it reached a server and either no daemon
   * acknowledged the request or the read of that failed; so the job went in twice exactly if that read failed, a daemon
   * submitted and a server was reached, and not at all exactly if no daemon submitted and either no server was reached
   * or a daemon acknowledged, which was read. That daemon has stopped or has yet to submit. An answer means that a
   * daemon submitted.
   */
  lemma {:induction false} FinishedOutcome(n: nat, k: nat, steps: seq<Action>, i: nat)
    requires Run(Init(n, k), steps).Some? && i < |Run(Init(n, k), steps).value.fgs|
    requires Run(Init(n, k), steps).value.fgs[i].stage == Finished
    ensures var s := Run(Init(n, k), steps).value;
            var f := s.fgs[i];
            && (f.byItself == 1 <==> (!f.acked || f.ackLost) && !f.noServer)
            && (Entries(f) == 2 <==> f.ackLost && f.byDaemon == 1 && !f.noServer)
            && (Entries(f) == 0 <==> f.byDaemon == 0 && (f.noServer || (f.acked && !f.ackLost)))
            && (f.acked && f.byDaemon == 0 ==> Peer(s, i).Gone? || Peer(s, i) == Preparing(i))
            && (f.answered ==> f.byDaemon == 1)
  {
    hide Run, Next, Enabled, Init;
    InitInv(n, k);
    RunKeepsInv(Init(n, k), steps);
    assert ForegroundOk(Run(Init(n, k), steps).value, i);
  }

  // ----- runs without crashes and failures -----

  /** What is also true of a foreground as long as nothing has failed. */
  predicate Calm(f: Foreground, i: nat, m: Daemon) {
    && !f.ackLost && !f.noServer
    && (f.acked && !f.answered && Result !in f.down ==> For(m, i))
    && (f.answered ==> f.stage in {Returned, Submitting, Finished})
    && (f.stage in {Returned, Finished} && !f.doRegular ==> f.answered)
  }

  predicate CalmAt(s: State, i: nat)
    requires i < |s.fgs|
  {
    Calm(s.fgs[i], i, Peer(s, i))
  }

  predicate AllCalm(s: State) {
    !s.faulty ==> forall i :: 0 <= i < |s.fgs| ==> CalmAt(s, i)
  }

  lemma {:induction false} ForegroundMovesCalmly(s: State, a: Action)
    requires Enabled(s, a) && OfForeground(a) && !IsFault(a) && a.i < |s.fgs| && ForegroundOk(s, a.i) && CalmAt(s, a.i)
    ensures a.i < |Next(s, a).fgs| && CalmAt(Next(s, a), a.i)
  {
    NextParts(s, a);
    hide Next;
    assert !a.Connect? ==> Peer(Next(s, a), a.i) == Peer(s, a.i);
  }

  lemma {:induction false} DaemonMovesCalmly(s: State, a: Action)
    requires Enabled(s, a) && !OfForeground(a) && !IsFault(a) && a.d < |s.dms| && Job(s, a) < |s.fgs|
    requires DaemonOk(s, a.d) && ForegroundOk(s, Job(s, a)) && CalmAt(s, Job(s, a))
    ensures Job(s, a) < |Next(s, a).fgs| && CalmAt(Next(s, a), Job(s, a))
  {
    NextParts(s, a);
    hide Next;
    var j, t := Job(s, a), Next(s, a);
    assert Peer(t, j) == if s.fgs[j].conn == Some(a.d) then Turned(s.dms[a.d], a) else Peer(s, j);
  }

  lemma {:induction false} OthersStayCalm(s: State, a: Action, j: nat)
    requires Enabled(s, a) && !IsFault(a) && j < |s.fgs| && j != Job(s, a) && ForegroundOk(s, j) && CalmAt(s, j)
    ensures j < |Next(s, a).fgs| && CalmAt(Next(s, a), j)
  {
    NextParts(s, a);
    if !OfForeground(a) && s.fgs[j].conn == Some(a.d) {
      NotMine(s, a, j);
    }
    hide Next, Enabled, Moved, Turned, Job;
    assert Next(s, a).fgs[j] == s.fgs[j];
  }

  lemma {:induction false} NotMine(s: State, a: Action, j: nat)
    requires Enabled(s, a) && !OfForeground(a) && !IsFault(a) && a.d < |s.dms| && j != Job(s, a)
    ensures !For(s.dms[a.d], j)
  {
  }

  lemma {:induction false} StepKeepsCalm(s: State, a: Action)
    requires Enabled(s, a) && Inv(s) && AllCalm(s)
    ensures AllCalm(Next(s, a))
  {
    Maker(s, a);
    NextParts(s, a);
    var t := Next(s, a);
    hide Next, Enabled, Moved, Turned, FgOk, DmOk, Job, ForegroundOk, DaemonOk, CalmAt;
    if !t.faulty {
      forall i | 0 <= i < |t.fgs| ensures CalmAt(t, i) {
        if i != Job(s, a) {
          OthersStayCalm(s, a, i);
        } else if OfForeground(a) {
          JobOf(s, a);
          ForegroundMovesCalmly(s, a);
        } else {
          DaemonMovesCalmly(s, a);
        }
      }
    }
  }

  lemma {:induction false} RunKeepsCalm(s: State, steps: seq<Action>)
    requires Inv(s) && AllCalm(s) && Run(s, steps).Some?
    ensures Inv(Run(s, steps).value) && AllCalm(Run(s, steps).value)
    decreases |steps|
  {
    hide Next, Enabled;
    if steps != [] {
      StepKeepsInv(s, steps[0]);
      StepKeepsCalm(s, steps[0]);
      RunKeepsCalm(Next(s, steps[0]), steps[1..]);
    }
  }

  lemma {:induction false} InitCalm(n: nat, k: nat)
    ensures AllCalm(Init(n, k))
  {
  }

  /** With no crash and no failing call, the job of every finished foreground is submitted exactly once. */
  lemma {:induction false} ExactlyOnce(n: nat, k: nat, steps: seq<Action>, i: nat)
    requires Run(Init(n, k), steps).Some? && i < |Run(Init(n, k), steps).value.fgs|
    requires var s := Run(Init(n, k), steps).value; !s.faulty && s.fgs[i].stage == Finished
    ensures Entries(Run(Init(n, k), steps).value.fgs[i]) == 1
  {
    hide Run, Next, Enabled, Init;
    InitInv(n, k);
    InitCalm(n, k);
    RunKeepsCalm(Init(n, k), steps);
    assert ForegroundOk(Run(Init(n, k), steps).value, i);
    assert CalmAt(Run(Init(n, k), steps).value, i);
  }

  // ----- progress -----

  /** How far a foreground is from its end. */
  function Rank(f: Foreground): nat {
    match f.stage
    case Checking => ITEMS + 6
    case Sending => if f.sent <= ITEMS then ITEMS - f.sent + 5 else 5
    case AwaitAck => 4
    case AwaitResult => 3
    case Returned => 2
    case Submitting => 1
    case Finished => 0
  }

  /** Every step of a foreground short of its death brings it nearer to its end, and no step of another process takes
      it further away. */
  lemma {:induction false} RankFalls(s: State, a: Action, i: nat)
    requires Enabled(s, a) && i < |s.fgs| && ForegroundOk(s, i)
    ensures i < |Next(s, a).fgs|
    ensures OfForeground(a) && a.i == i && !a.ForegroundDies? ==> Rank(Next(s, a).fgs[i]) < Rank(s.fgs[i])
    ensures !(OfForeground(a) && a.i == i) ==> Rank(Next(s, a).fgs[i]) == Rank(s.fgs[i])
    ensures !(a.ForegroundDies? && a.i == i) ==> Next(s, a).fgs[i].alive == s.fgs[i].alive
  {
    NextParts(s, a);
    if OfForeground(a) {
      JobOf(s, a);
      if a.i == i {
        OwnRank(s, a);
      }
    }
    OtherRank(s.fgs[i], a);
    hide *;
  }

  lemma {:induction false} OwnRank(s: State, a: Action)
    requires Enabled(s, a) && OfForeground(a) && a.i < |s.fgs| && s.fgs[a.i].sent <= ITEMS
    ensures !a.ForegroundDies? ==>
              Rank(Moved(s.fgs[a.i], a)) < Rank(s.fgs[a.i]) && Moved(s.fgs[a.i], a).alive == s.fgs[a.i].alive
  {
  }

  lemma {:induction false} OtherRank(f: Foreground, a: Action)
    ensures !OfForeground(a) ==> Rank(Moved(f, a)) == Rank(f) && Moved(f, a).alive == f.alive
  {
  }

  /** Steps that are no fault of their own: those of IsFault only when the peer has left the connection, or when the
      first code could not be read from it either. */
  predicate Natural(s: State, a: Action) {
    !IsFault(a) ||
    (a.ResultFails? && a.i < |s.fgs| && s.fgs[a.i].ackLost) ||
    (a.ReceiveFails? && Serving(s, a.d) &&
     var f := s.fgs[s.dms[a.d].i]; !f.alive || f.stage in {Returned, Submitting, Finished})
  }

  /** The steps are possible in turn, and natural. */
  predicate Naturally(s: State, steps: seq<Action>)
    decreases |steps|
  {
    steps == [] ||
    (Enabled(s, steps[0]) && Natural(s, steps[0]) && Naturally(Next(s, steps[0]), steps[1..]))
  }

  lemma {:induction false} NaturallyOn(s: State, a: Action, steps: seq<Action>)
    requires Enabled(s, a) && Natural(s, a) && Naturally(Next(s, a), steps)
    ensures Naturally(s, [a] + steps) && Run(s, [a] + steps) == Run(Next(s, a), steps)
  {
    hide Next, Enabled, Natural;
    assert ([a] + steps)[0] == a && ([a] + steps)[1..] == steps;
  }

  lemma {:induction false} NaturallyThen(s: State, x: seq<Action>, y: seq<Action>)
    requires Naturally(s, x) && Run(s, x).Some? && Naturally(Run(s, x).value, y)
    ensures Naturally(s, x + y) && Run(s, x + y) == Run(Run(s, x).value, y)
    decreases |x|
  {
    hide Next, Enabled, Natural;
    if x == [] {
      assert x + y == y;
    } else {
      assert (x + y)[0] == x[0] && (x + y)[1..] == x[1..] + y;
      NaturallyThen(Next(s, x[0]), x[1..], y);
    }
  }

  /** The first code has been read. */
  predicate Taken(f: Foreground) {
    Past(f) && !f.ackLost
  }

  /** The messages of a foreground: the first code until it is read, and results behind it. */
  predicate MailOk(f: Foreground) {
    && (f.stage in {AwaitAck, AwaitResult} ==> f.sent == ITEMS && f.conn.Some?)
    && (f.acked && !Taken(f) ==> f.down != [] && f.down[0] == Ack)
    && (forall k :: 0 <= k < |f.down| ==> f.down[k] == Result || (k == 0 && !Taken(f)))
  }

  predicate AllMailOk(s: State) {
    forall i :: 0 <= i < |s.fgs| ==> MailOk(s.fgs[i])
  }

  lemma {:induction false} StepKeepsMail(s: State, a: Action)
    requires Enabled(s, a) && Inv(s) && AllMailOk(s)
    ensures AllMailOk(Next(s, a))
  {
    NextParts(s, a);
    var j := Job(s, a);
    hide Next;
    if j < |s.fgs| {
      assert ForegroundOk(s, j) && MailOk(s.fgs[j]);
      if OfForeground(a) {
        JobOf(s, a);
        ForegroundMail(s, a);
      } else {
        assert DaemonOk(s, a.d);
        DaemonMail(s, a);
      }
    }
    hide Enabled, Moved, Turned, Job, MailOk, ForegroundOk, DaemonOk;
  }

  lemma {:induction false} ForegroundMail(s: State, a: Action)
    requires Enabled(s, a) && OfForeground(a) && a.i < |s.fgs| && ForegroundOk(s, a.i) && MailOk(s.fgs[a.i])
    ensures MailOk(Moved(s.fgs[a.i], a))
  {
  }

  lemma {:induction false} DaemonMail(s: State, a: Action)
    requires Enabled(s, a) && !OfForeground(a) && a.d < |s.dms| && Job(s, a) < |s.fgs|
    requires ForegroundOk(s, Job(s, a)) && DaemonOk(s, a.d) && MailOk(s.fgs[Job(s, a)])
    ensures MailOk(Moved(s.fgs[Job(s, a)], a))
  {
  }

  predicate Sound(s: State) {
    Inv(s) && AllMailOk(s)
  }

  lemma {:induction false} StepKeepsSound(s: State, a: Action)
    requires Enabled(s, a) && Sound(s)
    ensures Sound(Next(s, a))
  {
    StepKeepsInv(s, a);
    StepKeepsMail(s, a);
  }

  lemma {:induction false} RunKeepsSound(s: State, steps: seq<Action>)
    requires Sound(s) && Run(s, steps).Some?
    ensures Sound(Run(s, steps).value)
    decreases |steps|
  {
    hide Next, Enabled, Sound;
    if steps != [] {
      StepKeepsSound(s, steps[0]);
      RunKeepsSound(Next(s, steps[0]), steps[1..]);
    }
  }

  lemma {:induction false} InitSound(n: nat, k: nat)
    ensures Sound(Init(n, k))
  {
    InitInv(n, k);
  }

  /** What a daemon has still to do before it is idle, and then to stop. */
  function Work(s: State, d: nat): nat
    requires d < |s.dms|
  {
    match s.dms[d]
    case Receiving(i, n) =>
      if i < |s.fgs| && s.fgs[i].sent <= ITEMS && n <= ITEMS then ITEMS - n + (ITEMS - s.fgs[i].sent) + 5 else 5
    case Acking(_) => 4
    case Preparing(_) => 3
    case Replying(_) => 2
    case Idle => 1
    case Gone => 0
  }

  /** The step that brings daemon d nearer to its end. */
  function Working(s: State, d: nat): Action
    requires d < |s.dms| && !s.dms[d].Gone?
  {
    match s.dms[d]
    case Idle => IdleExit(d)
    case Acking(_) => Action.SendAck(d)
    case Preparing(_) => SubmitForIt(d)
    case Replying(_) => Action.Reply(d)
    case Receiving(i, n) =>
      if i < |s.fgs| && n == s.fgs[i].sent
      then (if s.fgs[i].alive && s.fgs[i].stage == Sending then Action.Send(i) else ReceiveFails(d))
      else Action.Receive(d)
    case Gone => IdleExit(d)
  }

  lemma {:induction false} WorkFalls(s: State, d: nat)
    requires Sound(s) && d < |s.dms| && !s.dms[d].Gone?
    ensures var a := Working(s, d);
            && Enabled(s, a) && Natural(s, a)
            && (a.Send? ==> a.i < |s.fgs| && s.fgs[a.i].stage == Sending && s.fgs[a.i].alive)
            && d < |Next(s, a).dms| && Work(Next(s, a), d) < Work(s, d)
  {
    var m := s.dms[d];
    assert DaemonOk(s, d);
    if !m.Idle? {
      assert ForegroundOk(s, m.i) && MailOk(s.fgs[m.i]);
    }
    var a := Working(s, d);
    hide Inv, AllMailOk;
    assert Enabled(s, a) && Natural(s, a);
    NextParts(s, a);
    hide Next;
  }

  /** A foreground that waits for a daemon stays as it is while a daemon works. */
  predicate Waits(f: Foreground) {
    f.alive && f.stage in {AwaitAck, AwaitResult}
  }

  lemma {:induction false} WaitsOn(s: State, d: nat, i: nat)
    requires d < |s.dms| && !s.dms[d].Gone? && Enabled(s, Working(s, d))
    requires Working(s, d).Send? ==> Working(s, d).i < |s.fgs| && s.fgs[Working(s, d).i].stage == Sending
    requires i < |s.fgs| && Waits(s.fgs[i])
    ensures var f, t := s.fgs[i], Next(s, Working(s, d));
            && i < |t.fgs| && t.fgs[i].alive && t.fgs[i].stage == f.stage && t.fgs[i].conn == f.conn
            && t.fgs[i].ackLost == f.ackLost
  {
    var a := Working(s, d);
    assert a.Send? || !OfForeground(a);
    NextParts(s, a);
    DaemonLeaves(s.fgs[i], a);
    if a.Send? {
      JobOf(s, a);
    }
    hide *;
  }

  lemma {:induction false} DaemonLeaves(f: Foreground, a: Action)
    ensures !OfForeground(a) ==>
              Moved(f, a).alive == f.alive && Moved(f, a).stage == f.stage && Moved(f, a).conn == f.conn &&
              Moved(f, a).ackLost == f.ackLost
  {
  }

  /** Any daemon can come to its end. */
  lemma {:induction false} Drain(s: State, d: nat, i: nat) returns (steps: seq<Action>)
    requires Sound(s) && d < |s.dms| && i < |s.fgs| && Waits(s.fgs[i])
    ensures Naturally(s, steps) && Run(s, steps).Some?
    ensures var f, t := s.fgs[i], Run(s, steps).value;
            && Sound(t) && d < |t.dms| && t.dms[d].Gone?
            && i < |t.fgs| && t.fgs[i].alive && t.fgs[i].stage == f.stage && t.fgs[i].conn == f.conn
            && t.fgs[i].ackLost == f.ackLost
    decreases Work(s, d)
  {
    steps := [];
    if !s.dms[d].Gone? {
      var a := Working(s, d);
      WorkFalls(s, d);
      WaitsOn(s, d, i);
      StepKeepsSound(s, a);
      hide Next, Enabled, Natural, Sound, Work, Working;
      var more := Drain(Next(s, a), d, i);
      NaturallyOn(s, a, more);
      steps := [a] + more;
    }
  }

  /** The own step of a foreground that is not waiting. */
  function OwnStep(f: Foreground, i: nat): Action {
    match f.stage
    case Checking => NoDaemon(i)
    case Sending => Action.Send(i)
    case AwaitAck => if f.down != [] then Action.ReadAck(i) else AckEnds(i)
    case AwaitResult =>
      if f.ackLost then ResultFails(i) else if f.down != [] then Action.ReadResult(i) else ResultEnds(i)
    case Returned => if f.doRegular then SubmitItself(i) else SkipRegular(i)
    case Submitting => Finish(i)
    case Finished => Finish(i)
  }

  lemma {:induction false} OwnStepGoes(s: State, i: nat)
    requires Sound(s) && i < |s.fgs| && s.fgs[i].alive && s.fgs[i].stage != Finished
    requires Waits(s.fgs[i]) ==> Peer(s, i).Gone? && s.fgs[i].conn.Some?
    ensures var a := OwnStep(s.fgs[i], i);
            Enabled(s, a) && Natural(s, a) && OfForeground(a) && a.i == i && !a.ForegroundDies?
  {
    assert ForegroundOk(s, i) && MailOk(s.fgs[i]);
  }

  /** One own step of a foreground, behind the end of the daemon it waits for. */
  lemma {:induction false} Nearer(s: State, i: nat) returns (steps: seq<Action>)
    requires Sound(s) && i < |s.fgs| && s.fgs[i].alive && s.fgs[i].stage != Finished
    ensures Naturally(s, steps) && Run(s, steps).Some?
    ensures var t := Run(s, steps).value;
            Sound(t) && i < |t.fgs| && t.fgs[i].alive && Rank(t.fgs[i]) < Rank(s.fgs[i])
  {
    var before, t := [], s;
    if Waits(s.fgs[i]) {
      assert ForegroundOk(s, i) && MailOk(s.fgs[i]);
      before := Drain(s, s.fgs[i].conn.value, i);
      t := Run(s, before).value;
    }
    var a := OwnStep(t.fgs[i], i);
    OwnStepGoes(t, i);
    assert ForegroundOk(t, i);
    RankFalls(t, a, i);
    StepKeepsSound(t, a);
    NaturallyOn(t, a, []);
    NaturallyThen(s, before, [a] + []);
    steps := before + ([a] + []);
  }

  /** From any state of any run, a foreground that is alive can come to its end by natural steps. */
  lemma {:induction false} CanFinish(s: State, i: nat) returns (steps: seq<Action>)
    requires Sound(s) && i < |s.fgs| && s.fgs[i].alive
    ensures Naturally(s, steps) && Run(s, steps).Some?
    ensures i < |Run(s, steps).value.fgs| && Run(s, steps).value.fgs[i].stage == Finished
    decreases Rank(s.fgs[i])
  {
    steps := [];
    if s.fgs[i].stage != Finished {
      steps := Nearer(s, i);
      hide Next, Enabled, Natural, Sound;
      var t := Run(s, steps).value;
      var more := CanFinish(t, i);
      NaturallyThen(s, steps, more);
      steps := steps + more;
    }
  }

  /** Progress: over every run, whatever has crashed and failed, every foreground that is alive can still come to its
      end without another fault. */
  lemma {:induction false} AlwaysCanFinish(n: nat, k: nat, steps: seq<Action>, i: nat) returns (more: seq<Action>)
    requires Run(Init(n, k), steps).Some? && i < |Run(Init(n, k), steps).value.fgs|
    requires Run(Init(n, k), steps).value.fgs[i].alive
    ensures var s := Run(Init(n, k), steps).value;
            && Naturally(s, more) && Run(s, more).Some? && i < |Run(s, more).value.fgs|
            && Run(s, more).value.fgs[i].stage == Finished
  {
    hide Run, Next, Enabled, Init, Naturally, Sound;
    InitSound(n, k);
    RunKeepsSound(Init(n, k), steps);
    more := CanFinish(Run(Init(n, k), steps).value, i);
  }

  /** A step of a single foreground without a daemon. */
  lemma {:induction false} NextAlone(f: Foreground, a: Action)
    requires OfForeground(a) && a.i == 0 && !IsFault(a) && Enabled(State([f], [], false), a)
    ensures Next(State([f], [], false), a)
         == State([Moved(f, a)], if a.FinishAndStay? then [Idle] else [], false)
  {
    var s := State([f], [], false);
    hide Moved;
    NextParts(s, a);
    JobOf(s, a);
    assert s.fgs[0 := Moved(f, a)] == [Moved(f, a)];
  }

  lemma {:induction false} RunThree(s: State, a: Action, b: Action, c: Action)
    requires Enabled(s, a) && Enabled(Next(s, a), b) && Enabled(Next(Next(s, a), b), c)
    ensures Run(s, [a, b, c]) == Some(Next(Next(Next(s, a), b), c))
  {
    hide Next, Enabled;
    assert [a, b, c][1..] == [b, c] && [b, c][1..] == [c] && [c][1..] == [];
    var t := Next(s, a);
    assert Run(s, [a, b, c]) == Run(t, [b, c]) == Run(Next(t, b), [c]);
    assert Run(Next(t, b), [c]) == Run(Next(Next(t, b), c), []);
  }

  /** The first qsub of a user finds no daemon, submits its job itself, and stays behind as the daemon. */
  lemma {:induction false} FirstSubmitsItself() returns (steps: seq<Action>, f: Foreground)
    ensures Run(Init(1, 0), steps) == Some(State([f], [Idle], false))
    ensures f.stage == Finished && f.byItself == 1 && f.byDaemon == 0
  {
    var s := Init(1, 0);
    assert s == State([FRESH], [], false);
    hide Run, Next;
    NextAlone(FRESH, NoDaemon(0));
    var g := FRESH.(stage := Returned);
    NextAlone(g, SubmitItself(0));
    g := g.(stage := Submitting, byItself := 1);
    NextAlone(g, FinishAndStay(0));
    f := g.(stage := Finished);
    RunThree(s, NoDaemon(0), SubmitItself(0), FinishAndStay(0));
    steps := [NoDaemon(0), SubmitItself(0), FinishAndStay(0)];
  }

  // ----- both bounds are met: one foreground and one daemon -----

  lemma {:induction false} RunOn(s: State, x: seq<Action>, y: seq<Action>)
    requires Run(s, x).Some?
    ensures Run(s, x + y) == Run(Run(s, x).value, y)
    decreases |x|
  {
    hide Next, Enabled;
    if x == [] {
      assert x + y == y;
    } else {
      assert (x + y)[0] == x[0] && (x + y)[1..] == x[1..] + y;
      RunOn(Next(s, x[0]), x[1..], y);
    }
  }

  /** One foreground and one daemon. */
  function Two(f: Foreground, m: Daemon, faulty: bool): State {
    State([f], [m], faulty)
  }

  predicate Reached(f: Foreground, m: Daemon, faulty: bool, steps: seq<Action>) {
    Run(Init(1, 1), steps) == Some(Two(f, m, faulty))
  }

  lemma {:induction false} NextOfTwo(f: Foreground, m: Daemon, faulty: bool, a: Action)
    requires Enabled(Two(f, m, faulty), a) && !a.FinishAndStay? && (m.Idle? || m.Gone? || m.i == 0)
    ensures Next(Two(f, m, faulty), a)
         == Two(Moved(f, a), if OfForeground(a) then m else Turned(m, a), faulty || IsFault(a))
  {
    hide Moved, Turned, Enabled;
    var s := Two(f, m, faulty);
    NextParts(s, a);
    assert Job(s, a) == 0 by {
      JobOfTwo(f, m, faulty, a);
    }
    assert s.fgs[0 := Moved(f, a)] == [Moved(f, a)];
    assert s.dms[0 := Turned(m, a)] == [Turned(m, a)];
  }

  lemma {:induction false} JobOfTwo(f: Foreground, m: Daemon, faulty: bool, a: Action)
    requires Enabled(Two(f, m, faulty), a) && (m.Idle? || m.Gone? || m.i == 0)
    ensures Job(Two(f, m, faulty), a) == 0
  {
  }

  /** One more step. */
  lemma {:induction false} Go(f: Foreground, m: Daemon, faulty: bool, steps: seq<Action>, a: Action)
      returns (more: seq<Action>)
    requires Reached(f, m, faulty, steps) && Enabled(Two(f, m, faulty), a) && !a.FinishAndStay?
    requires m.Idle? || m.Gone? || m.i == 0
    ensures Reached(Moved(f, a), if OfForeground(a) then m else Turned(m, a), faulty || IsFault(a), more)
  {
    more := steps + [a];
    NextOfTwo(f, m, faulty, a);
    hide Next, Enabled, Moved, Turned, Init;
    RunOn(Init(1, 1), steps, [a]);
    assert [a][1..] == [];
  }

  /** n items sent, none received. */
  function SentItems(n: nat): Foreground {
    FRESH.(stage := if n == ITEMS then AwaitAck else Sending, conn := Some(0), sent := n)
  }

  lemma {:induction false} ToSent(n: nat) returns (steps: seq<Action>)
    requires n <= ITEMS
    ensures Reached(SentItems(n), Idle, false, steps)
  {
    hide Run;
    if n == 0 {
      assert Reached(FRESH, Idle, false, []) by {
        Start();
      }
      steps := Go(FRESH, Idle, false, [], Connect(0, 0));
    } else {
      steps := ToSent(n - 1);
      steps := Go(SentItems(n - 1), Idle, false, steps, Action.Send(0));
    }
  }

  lemma {:induction false} Start()
    ensures Reached(FRESH, Idle, false, [])
  {
    assert Init(1, 1).fgs == [FRESH] && Init(1, 1).dms == [Idle];
  }

  /** All items sent and n received. */
  lemma {:induction false} ToReceived(n: nat) returns (steps: seq<Action>)
    requires n <= ITEMS
    ensures Reached(SentItems(ITEMS).(accepted := true), if n == ITEMS then Acking(0) else Receiving(0, n), false,
                    steps)
  {
    hide Run;
    if n == 0 {
      steps := ToSent(ITEMS);
      steps := Go(SentItems(ITEMS), Idle, false, steps, Accept(0, 0));
    } else {
      steps := ToReceived(n - 1);
      steps := Go(SentItems(ITEMS).(accepted := true), Receiving(0, n - 1), false, steps, Action.Receive(0));
    }
  }

  /** The first code is on its way. */
  const ACKED := SentItems(ITEMS).(accepted := true, acked := true, down := [Ack])

  lemma {:induction false} ToAcked() returns (steps: seq<Action>)
    ensures Reached(ACKED, Preparing(0), false, steps)
  {
    hide Run;
    assert [] + [Ack] == [Ack];
    steps := ToReceived(ITEMS);
    steps := Go(SentItems(ITEMS).(accepted := true), Acking(0), false, steps, Action.SendAck(0));
  }

  /** The exception of AtMostOnce is real: a failed read of the first code submits the job twice. */
  lemma {:induction false} LostAckSubmitsTwice() returns (steps: seq<Action>, f: Foreground)
    ensures Reached(f, Replying(0), true, steps) && Entries(f) == 2 && f.ackLost
  {
    hide Run, Reached;
    assert [Ack][1..] == [] && [Result][1..] == [] && [] + [Result] == [Result];
    steps := ToAcked();
    f := ACKED;
    steps := Go(f, Preparing(0), false, steps, AckFails(0));
    f := f.(stage := AwaitResult, ackLost := true);
    steps := Go(f, Preparing(0), true, steps, ResultFails(0));
    f := f.(stage := Returned);
    steps := Go(f, Preparing(0), true, steps, SubmitItself(0));
    f := f.(stage := Submitting, byItself := 1);
    steps := Go(f, Preparing(0), true, steps, SubmitForIt(0));
    f := f.(byDaemon := 1);
  }

  /** A daemon that dies behind its acknowledgement loses the job, as the source says it prefers to. */
  lemma {:induction false} DeadDaemonLosesJob() returns (steps: seq<Action>, f: Foreground)
    ensures Reached(f, Gone, true, steps) && Entries(f) == 0 && f.stage == Finished
  {
    hide Run, Reached;
    assert [Ack][1..] == [] && [Result][1..] == [] && [] + [Result] == [Result];
    steps := ToAcked();
    f := ACKED;
    steps := Go(f, Preparing(0), false, steps, DaemonDies(0));
    steps := Go(f, Gone, true, steps, Action.ReadAck(0));
    f := f.(doRegular := false, stage := AwaitResult, down := []);
    steps := Go(f, Gone, true, steps, ResultEnds(0));
    f := f.(stage := Returned);
    steps := Go(f, Gone, true, steps, SkipRegular(0));
    f := f.(stage := Finished);
  }

  lemma {:induction false} ToAnswer() returns (steps: seq<Action>)
    ensures Reached(ACKED.(doRegular := false, stage := AwaitResult, byDaemon := 1, down := [Result]), Idle, false,
                    steps)
  {
    hide Run, Reached;
    assert [Ack][1..] == [] && [] + [Result] == [Result];
    steps := ToAcked();
    var f := ACKED;
    steps := Go(f, Preparing(0), false, steps, Action.ReadAck(0));
    f := f.(doRegular := false, stage := AwaitResult, down := []);
    steps := Go(f, Preparing(0), false, steps, SubmitForIt(0));
    f := f.(byDaemon := 1);
    steps := Go(f, Replying(0), false, steps, Action.Reply(0));
  }

  /** And a run without any fault does finish through the daemon. */
  lemma {:induction false} DaemonSubmits() returns (steps: seq<Action>, f: Foreground)
    ensures Reached(f, Idle, false, steps) && f.stage == Finished && f.byDaemon == 1 && f.byItself == 0
  {
    hide Run, Reached;
    assert [Result][1..] == [];
    steps := ToAnswer();
    f := ACKED.(doRegular := false, stage := AwaitResult, byDaemon := 1, down := [Result]);
    steps := Go(f, Idle, false, steps, Action.ReadResult(0));
    f := f.(stage := Returned, answered := true, down := []);
    steps := Go(f, Idle, false, steps, SkipRegular(0));
    f := f.(stage := Finished);
  }
}
