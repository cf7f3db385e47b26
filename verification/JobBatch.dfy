/** The express option of qstat, which asks each server for many jobs at once
    (src/cmds/qstat.c:2638-2682, 2715-2868). */
module JobBatch {
  /** A job and the server that its identifier names, "" when it names none. */
  datatype Job = Job(id: string, server: string)

  /** What an operand turns out to be: a job, an illegal job identifier, or something else. */
  datatype Operand = Named(job: Job) | Illegal | NotAJob

  /** Every operand is a job identifier, legal or not. */
  predicate NoneElse(args: seq<Operand>) {
    forall i :: 0 <= i < |args| ==> !args[i].NotAJob?
  }

  /** A request for the jobs in text, each followed by a comma. */
  datatype Query = Query(server: string, text: string)

  // ----- what the queries should be -----

  predicate Remote(j: Job, def: string)
  {
    j.server != "" && j.server != def
  }

  /** The server that the job is asked for at. */
  function Home(j: Job, def: string): string
  {
    if Remote(j, def) then j.server else def
  }

  /** The jobs among the operands. */
  function Jobs(args: seq<Operand>): seq<Job>
  {
    if args == [] then []
    else Jobs(args[..|args| - 1]) + if args[|args| - 1].Named? then [args[|args| - 1].job] else []
  }

  function Entry(j: Job): (t: string)
    ensures t != ""
  {
    j.id + ","
  }

  /** One query for each longest run of jobs with one home. */
  function Batches(jobs: seq<Job>, def: string): (qs: seq<Query>)
    ensures jobs != [] ==> qs != [] && qs[|qs| - 1].server == Home(jobs[|jobs| - 1], def) && qs[|qs| - 1].text != ""
    ensures jobs == [] ==> qs == []
  {
    if jobs == [] then []
    else
      var n, j := |jobs| - 1, jobs[|jobs| - 1];
      var qs := Batches(jobs[..n], def);
      if qs != [] && qs[|qs| - 1].server == Home(j, def)
      then qs[..|qs| - 1] + [Query(qs[|qs| - 1].server, qs[|qs| - 1].text + Entry(j))]
      else qs + [Query(Home(j, def), Entry(j))]
  }

  /** The texts one after the other. */
  function Texts(qs: seq<Query>): string {
    if qs == [] then "" else Texts(qs[..|qs| - 1]) + qs[|qs| - 1].text
  }

  function Entries(jobs: seq<Job>): string
  {
    if jobs == [] then "" else Entries(jobs[..|jobs| - 1]) + Entry(jobs[|jobs| - 1])
  }

  // ----- the loop -----

  datatype State = State(jobList: string, prev: string, newRemote: bool, sent: seq<Query>)

  const START := State("", "", false, [])

  /** From job_no_args on: a query at the previous server, and for the last operand perhaps a second one. */
  function Ask(s: State, text: string, server: string, last: bool, down: set<string>): State {
    if s.prev in down then s
    else
      var t := s.(sent := s.sent + [Query(s.prev, text)]);
      if !s.newRemote then t
      else
        var u := t.(prev := server, newRemote := false);
        if !last || u.jobList == "" || u.prev in down then u
        else u.(sent := u.sent + [Query(u.prev, u.jobList)])
  }

  function Step(s: State, op: Operand, last: bool, def: string, down: set<string>): State
    requires !op.NotAJob?
  {
    if op.Illegal? then s
    else if !Remote(op.job, def) then
      var t := s.(prev := if s.prev == "" then def else s.prev, jobList := s.jobList + Entry(op.job));
      if last then Ask(t.(jobList := ""), t.jobList, op.job.server, last, down) else t
    else if s.prev == "" || op.job.server == s.prev then
      var t := s.(prev := op.job.server, jobList := s.jobList + Entry(op.job));
      if last then Ask(t.(jobList := "", newRemote := true), t.jobList, op.job.server, last, down) else t
    else
      Ask(s.(jobList := Entry(op.job), newRemote := true), s.jobList, op.job.server, last, down)
  }

  /** The state behind the first i operands. */
  function After(args: seq<Operand>, i: nat, def: string, down: set<string>): State
    requires i <= |args| && NoneElse(args[..i])
  {
    if i == 0 then START else Step(After(args, i - 1, def, down), args[i - 1], i == |args|, def, down)
  }

  /** The loop over the operands. A usage error returns at once. */
  method Express(args: seq<Operand>, def: string, down: set<string>) returns (usage: bool, sent: seq<Query>)
    ensures usage <==> !NoneElse(args)
    ensures !usage ==> sent == After(args, |args|, def, down).sent
    ensures usage ==> exists k :: 0 <= k < |args| && args[k].NotAJob? && NoneElse(args[..k]) &&
                                  sent == After(args, k, def, down).sent
  {
    var jobList, prev, newRemote, query := "", "", false, "";
    sent := [];
    var optind := 0;
    while optind < |args|
      invariant optind <= |args| && forall i :: 0 <= i < optind ==> !args[i].NotAJob?
      invariant After(args, optind, def, down) == State(jobList, prev, newRemote, sent)
    {
      var last := optind == |args| - 1;
      var op := args[optind];
      optind := optind + 1;
      if op.NotAJob? {
        return true, sent;
      }
      if op.Illegal? {
        continue;
      }
      if op.job.server == "" || op.job.server == def {
        if prev == "" {
          prev := def;
        }
        jobList := jobList + (op.job.id + ",");
        if !last {
          continue;
        }
        query := jobList;
        jobList := "";
      } else if prev == "" || op.job.server == prev {
        if prev == "" {
          prev := op.job.server;
        }
        jobList := jobList + (op.job.id + ",");
        if !last {
          continue;
        }
        newRemote := true;
        query := jobList;
        jobList := "";
      } else {
        newRemote := true;
        query := jobList;
        jobList := op.job.id + ",";
      }
      if prev in down {
        continue;
      }
      sent := sent + [Query(prev, query)];
      if newRemote {
        prev := op.job.server;
        newRemote := false;
        if last && jobList != "" && prev !in down {
          sent := sent + [Query(prev, jobList)];
        }
      }
    }
    usage := false;
  }

  // ----- when the queries are what they should be -----

  /** Jobs of the default server come first, and without a default server there are not both kinds. */
  predicate Ordered(jobs: seq<Job>, def: string)
  {
    forall i, k :: 0 <= i < k < |jobs| ==>
      (Remote(jobs[i], def) ==> Remote(jobs[k], def)) && (def == "" && Remote(jobs[k], def) ==> Remote(jobs[i], def))
  }

  /** The job may follow the others. */
  predicate Fits(jobs: seq<Job>, j: Job, def: string)
  {
    jobs == [] ||
    var before := jobs[|jobs| - 1];
    Home(before, def) == Home(j, def) || (Remote(j, def) && (def != "" || Remote(before, def)))
  }

  lemma {:induction false} OrderedStep(jobs: seq<Job>, j: Job, def: string)
    ensures Ordered(jobs + [j], def) <==> Ordered(jobs, def) && Fits(jobs, j, def)
  {
    var all := jobs + [j];
    assert forall i :: 0 <= i < |jobs| ==> all[i] == jobs[i];
    if jobs != [] && Ordered(all, def) {
      assert all[|jobs| - 1] == jobs[|jobs| - 1] && all[|jobs|] == j;
    }
  }

  /** So far so good: only the last batch has not been asked for. */
  predicate Good(s: State, jobs: seq<Job>, def: string)
  {
    if jobs == [] then s == START
    else
      var qs := Batches(jobs, def);
      var n := |qs| - 1;
      s == State(qs[n].text, qs[n].server, false, qs[..n])
  }

  /** Batch k is complete, but what was or will be sent as query k is longer. */
  predicate Bad(s: State, jobs: seq<Job>, def: string, k: nat)
  {
    var qs := Batches(jobs, def);
    && k < |qs| - 1 && k <= |s.sent| && !s.newRemote && s.prev != ""
    && |if k < |s.sent| then s.sent[k].text else s.jobList| > |qs[k].text|
  }

  lemma {:induction false} BatchesStep(jobs: seq<Job>, j: Job, def: string)
    ensures Batches(jobs + [j], def) ==
            var qs := Batches(jobs, def);
            if qs != [] && qs[|qs| - 1].server == Home(j, def)
            then qs[..|qs| - 1] + [Query(qs[|qs| - 1].server, qs[|qs| - 1].text + Entry(j))]
            else qs + [Query(Home(j, def), Entry(j))]
  {
    assert (jobs + [j])[..|jobs|] == jobs;
  }

  lemma {:induction false} GoodStep(s: State, jobs: seq<Job>, j: Job, def: string)
    requires Good(s, jobs, def)
    ensures Fits(jobs, j, def) ==> Good(Step(s, Named(j), false, def, {}), jobs + [j], def)
    ensures !Fits(jobs, j, def) ==> Bad(Step(s, Named(j), false, def, {}), jobs + [j], def, |Batches(jobs, def)| - 1)
  {
    hide Batches;
    BatchesStep(jobs, j, def);
  }

  lemma {:induction false} GoodLast(s: State, jobs: seq<Job>, j: Job, def: string)
    requires Good(s, jobs, def)
    ensures Fits(jobs, j, def) <==> Step(s, Named(j), true, def, {}).sent == Batches(jobs + [j], def)
  {
    hide Batches;
    BatchesStep(jobs, j, def);
    assert "" + Entry(j) == Entry(j);
    if jobs != [] {
      var qs := Batches(jobs, def);
      assert qs == qs[..|qs| - 1] + [qs[|qs| - 1]];
      assert !Fits(jobs, j, def) ==> |Step(s, Named(j), true, def, {}).sent| == |qs|;
    }
  }

  lemma {:induction false} BadStep(s: State, jobs: seq<Job>, j: Job, def: string, k: nat)
    requires Bad(s, jobs, def, k)
    ensures Bad(Step(s, Named(j), false, def, {}), jobs + [j], def, k)
  {
    hide Batches;
    BatchesStep(jobs, j, def);
  }

  lemma {:induction false} BadLast(s: State, jobs: seq<Job>, j: Job, def: string, k: nat)
    requires Bad(s, jobs, def, k)
    ensures Step(s, Named(j), true, def, {}).sent != Batches(jobs + [j], def)
  {
    hide Batches;
    BatchesStep(jobs, j, def);
    var t := Step(s, Named(j), true, def, {});
    var qs := Batches(jobs + [j], def);
    assert qs[k] == Batches(jobs, def)[k];
    assert k < |t.sent| && |t.sent[k].text| > |qs[k].text|;
  }

  // ----- the whole loop -----

  lemma {:induction false} JobsStep(args: seq<Operand>, i: nat)
    requires 0 < i <= |args|
    ensures Jobs(args[..i]) ==
            if args[i - 1].Named? then Jobs(args[..i - 1]) + [args[i - 1].job] else Jobs(args[..i - 1])
  {
    assert args[..i][..i - 1] == args[..i - 1];
  }

  /** The state behind i operands is as good as their order. */
  lemma {:induction false} Progress(args: seq<Operand>, i: nat, def: string) returns (k: nat)
    requires i < |args| && NoneElse(args)
    ensures Ordered(Jobs(args[..i]), def) ==> Good(After(args, i, def, {}), Jobs(args[..i]), def)
    ensures !Ordered(Jobs(args[..i]), def) ==> Bad(After(args, i, def, {}), Jobs(args[..i]), def, k)
  {
    if i == 0 {
      k := 0;
    } else {
      k := Progress(args, i - 1, def);
      JobsStep(args, i);
      k := ProgressStep(After(args, i - 1, def, {}), Jobs(args[..i - 1]), args[i - 1], def, k);
    }
  }

  lemma {:induction false} ProgressStep(s: State, jobs: seq<Job>, op: Operand, def: string, k: nat) returns (k': nat)
    requires !op.NotAJob? && if Ordered(jobs, def) then Good(s, jobs, def) else Bad(s, jobs, def, k)
    ensures
      var more := if op.Named? then jobs + [op.job] else jobs;
      var t := Step(s, op, false, def, {});
      if Ordered(more, def) then Good(t, more, def) else Bad(t, more, def, k')
  {
    assert op.Named? && jobs == [] ==> Fits(jobs, op.job, def);
    hide Batches, Good, Bad, Ordered, Fits;
    k' := k;
    if op.Named? {
      OrderedStep(jobs, op.job, def);
      if Ordered(jobs, def) {
        GoodStep(s, jobs, op.job, def);
        if !Fits(jobs, op.job, def) {
          k' := |Batches(jobs, def)| - 1;
        }
      } else {
        BadStep(s, jobs, op.job, def, k);
      }
    }
  }

  lemma {:induction false} ProgressLast(s: State, jobs: seq<Job>, op: Operand, def: string, k: nat)
    requires !op.NotAJob? && if Ordered(jobs, def) then Good(s, jobs, def) else Bad(s, jobs, def, k)
    ensures
      var more := if op.Named? then jobs + [op.job] else jobs;
      Step(s, op, true, def, {}).sent == Batches(more, def) <==> Ordered(more, def) && (more == [] || op.Named?)
  {
    if op.Named? {
      OrderedStep(jobs, op.job, def);
      hide Batches, Good, Bad, Ordered, Fits;
      if Ordered(jobs, def) {
        GoodLast(s, jobs, op.job, def);
      } else {
        BadLast(s, jobs, op.job, def, k);
      }
    } else if jobs != [] {
      IllegalLast(s, jobs, def, k);
    }
  }

  /** Nothing is asked for behind an illegal identifier. */
  lemma {:induction false} IllegalLast(s: State, jobs: seq<Job>, def: string, k: nat)
    requires jobs != [] && (Good(s, jobs, def) || Bad(s, jobs, def, k))
    ensures s.sent != Batches(jobs, def)
  {
    var qs := Batches(jobs, def);
    if Bad(s, jobs, def, k) && k < |s.sent| {
      assert s.sent[k].text != qs[k].text;
    }
    assert |s.sent| < |qs| || k < |s.sent|;
  }

  /** When all queries connect, they are one for each longest run of jobs of one server, in the order of the operands
      and at that server, iff the default server's jobs come first, default server and others are not mixed when the
      default is unknown, and the last operand is legal or none is. */
  lemma {:induction false} QueriesAreBatches(args: seq<Operand>, def: string)
    requires NoneElse(args)
    ensures After(args, |args|, def, {}).sent == Batches(Jobs(args), def) <==>
            Ordered(Jobs(args), def) && (Jobs(args) == [] || args[|args| - 1].Named?)
  {
    if args != [] {
      var n := |args| - 1;
      var k := Progress(args, n, def);
      JobsStep(args, |args|);
      assert args[..|args|] == args;
      ProgressLast(After(args, n, def, {}), Jobs(args[..n]), args[n], def, k);
    }
  }

  lemma {:induction false} TextsAppend(qs: seq<Query>, q: Query)
    ensures Texts(qs + [q]) == Texts(qs) + q.text
  {
    assert (qs + [q])[..|qs|] == qs;
  }

  lemma {:induction false} TextsGrow(front: seq<Query>, q: Query, e: string)
    ensures Texts(front + [Query(q.server, q.text + e)]) == Texts(front + [q]) + e
  {
    TextsAppend(front, q);
    TextsAppend(front, Query(q.server, q.text + e));
    hide *;
    assert Texts(front) + (q.text + e) == Texts(front) + q.text + e;
  }

  /** Every job is asked for once, in the order of the operands. */
  lemma {:induction false} TextsOfBatches(jobs: seq<Job>, def: string)
    ensures Texts(Batches(jobs, def)) == Entries(jobs)
  {
    if jobs != [] {
      var j, some := jobs[|jobs| - 1], jobs[..|jobs| - 1];
      assert Entries(jobs) == Entries(some) + Entry(j) && jobs == some + [j];
      hide *;
      TextsOfBatches(some, def);
      BatchesStep(some, j, def);
      var qs := Batches(some, def);
      if qs != [] && qs[|qs| - 1].server == Home(j, def) {
        assert qs == qs[..|qs| - 1] + [qs[|qs| - 1]];
        TextsGrow(qs[..|qs| - 1], qs[|qs| - 1], Entry(j));
      } else {
        TextsAppend(qs, Query(Home(j, def), Entry(j)));
      }
    }
  }

  // ----- what the server reads -----

  /** The identifiers that a text names: whatever stands in front of each comma. */
  function NamedIn(t: string, open: string): seq<string> {
    if t == "" then []
    else if t[0] == ',' then [open] + NamedIn(t[1..], "")
    else NamedIn(t[1..], open + [t[0]])
  }

  /** The identifiers that the queries name, each with the server that it is asked for at. */
  function Asked(qs: seq<Query>): seq<(string, string)> {
    if qs == [] then [] else Asked(qs[..|qs| - 1]) + At(NamedIn(qs[|qs| - 1].text, ""), qs[|qs| - 1].server)
  }

  function At(ids: seq<string>, server: string): seq<(string, string)> {
    seq(|ids|, i requires 0 <= i < |ids| => (ids[i], server))
  }

  predicate Plain(jobs: seq<Job>) {
    forall i :: 0 <= i < |jobs| ==> ',' !in jobs[i].id
  }

  lemma {:induction false} NamedAppend(t: string, open: string, more: string)
    requires t != "" && t[|t| - 1] == ','
    ensures NamedIn(t + more, open) == NamedIn(t, open) + NamedIn(more, "")
    decreases |t|
  {
    assert (t + more)[1..] == t[1..] + more;
    if t[1..] == "" {
      assert "" + more == more;
      assert NamedIn(t, open) == [open] + [];
    } else if t[0] == ',' {
      NamedAppend(t[1..], "", more);
      assert [open] + (NamedIn(t[1..], "") + NamedIn(more, "")) == [open] + NamedIn(t[1..], "") + NamedIn(more, "");
    } else {
      NamedAppend(t[1..], open + [t[0]], more);
    }
  }

  /** An identifier and a comma name that identifier alone, if and only if it holds no comma itself. */
  lemma {:induction false} OneNamed(id: string, open: string)
    ensures ',' !in id ==> NamedIn(id + ",", open) == [open + id]
    ensures ',' in id ==> |NamedIn(id + ",", open)| > 1
    decreases |id|
  {
    if id == "" {
      assert NamedIn(",", open) == [open] + NamedIn("", "") && open + id == open;
    } else {
      assert (id + ",")[1..] == id[1..] + ",";
      if id[0] == ',' {
        OneNamed(id[1..], "");
      } else {
        OneNamed(id[1..], open + [id[0]]);
        assert open + [id[0]] + id[1..] == open + id;
      }
    }
  }

  lemma {:induction false} AskedStep(qs: seq<Query>, server: string, text: string)
    ensures Asked(qs + [Query(server, text)]) == Asked(qs) + At(NamedIn(text, ""), server)
  {
    assert (qs + [Query(server, text)])[..|qs|] == qs;
  }

  /** A longer text asks for more at the same server. */
  lemma {:induction false} AskedGrow(front: seq<Query>, q: Query, e: string)
    requires q.text != "" && q.text[|q.text| - 1] == ','
    ensures Asked(front + [Query(q.server, q.text + e)]) == Asked(front + [q]) + At(NamedIn(e, ""), q.server)
  {
    AskedStep(front, q.server, q.text);
    AskedStep(front, q.server, q.text + e);
    NamedAppend(q.text, "", e);
    hide NamedIn, Asked;
    var a, b, c := Asked(front), At(NamedIn(q.text, ""), q.server), At(NamedIn(e, ""), q.server);
    assert At(NamedIn(q.text, "") + NamedIn(e, ""), q.server) == b + c;
    assert a + (b + c) == a + b + c;
  }

  lemma {:induction false} LastEnds(jobs: seq<Job>, def: string)
    requires jobs != []
    ensures var t := Batches(jobs, def)[|Batches(jobs, def)| - 1].text; t != "" && t[|t| - 1] == ','
  {
    var j, some := jobs[|jobs| - 1], jobs[..|jobs| - 1];
    BatchesStep(some, j, def);
    assert some + [j] == jobs;
    hide Batches;
  }

  /** One job more is asked for behind the others, at its server. */
  lemma {:induction false} AskedNext(jobs: seq<Job>, j: Job, def: string)
    ensures Asked(Batches(jobs + [j], def)) == Asked(Batches(jobs, def)) + At(NamedIn(Entry(j), ""), Home(j, def))
  {
    BatchesStep(jobs, j, def);
    var qs := Batches(jobs, def);
    if qs != [] && qs[|qs| - 1].server == Home(j, def) {
      assert qs == qs[..|qs| - 1] + [qs[|qs| - 1]] && jobs != [];
      LastEnds(jobs, def);
      hide *;
      AskedGrow(qs[..|qs| - 1], qs[|qs| - 1], Entry(j));
    } else {
      hide *;
      AskedStep(qs, Home(j, def), Entry(j));
    }
  }

  /** Every job once, in order and at its server, which is the default server when it names none. */
  predicate AreAsked(asked: seq<(string, string)>, jobs: seq<Job>, def: string) {
    |asked| == |jobs| && forall i :: 0 <= i < |jobs| ==>
      asked[i].0 == jobs[i].id && asked[i].1 == if jobs[i].server == "" then def else jobs[i].server
  }

  /** Read back, the queries name every job so, if and only if no identifier holds a comma. */
  lemma {:induction false} QueriesNameJobs(jobs: seq<Job>, def: string)
    ensures AreAsked(Asked(Batches(jobs, def)), jobs, def) <==> Plain(jobs)
    ensures |Asked(Batches(jobs, def))| >= |jobs| && (|Asked(Batches(jobs, def))| == |jobs| ==> Plain(jobs))
  {
    if jobs != [] {
      var j, some := jobs[|jobs| - 1], jobs[..|jobs| - 1];
      assert some + [j] == jobs;
      hide *;
      QueriesNameJobs(some, def);
      AskedNext(some, j, def);
      NamedNext(Asked(Batches(some, def)), some, j, def);
    } else {
      hide NamedIn, At;
    }
  }

  lemma {:induction false} NamedNext(asked: seq<(string, string)>, jobs: seq<Job>, j: Job, def: string)
    requires AreAsked(asked, jobs, def) <==> Plain(jobs)
    requires |asked| >= |jobs| && (|asked| == |jobs| ==> Plain(jobs))
    ensures
      var more := asked + At(NamedIn(Entry(j), ""), Home(j, def));
      && |more| >= |jobs| + 1 && (|more| == |jobs| + 1 ==> Plain(jobs + [j]))
      && (AreAsked(more, jobs + [j], def) <==> Plain(jobs + [j]))
  {
    OneNamed(j.id, "");
    assert "" + j.id == j.id;
    PlainNext(jobs, j);
    hide NamedIn;
  }

  lemma {:induction false} PlainNext(jobs: seq<Job>, j: Job)
    ensures Plain(jobs + [j]) <==> Plain(jobs) && ',' !in j.id
  {
    assert forall i :: 0 <= i < |jobs| ==> (jobs + [j])[i] == jobs[i];
    assert (jobs + [j])[|jobs|] == j;
  }

  /** With operands in order and a legal last one, every server reads its jobs, when no identifier holds a comma. */
  lemma {:induction false} ServersReadTheJobs(args: seq<Operand>, def: string)
    requires NoneElse(args) && Ordered(Jobs(args), def) && (Jobs(args) == [] || args[|args| - 1].Named?)
    ensures AreAsked(Asked(After(args, |args|, def, {}).sent), Jobs(args), def) <==> Plain(Jobs(args))
  {
    QueriesAreBatches(args, def);
    QueriesNameJobs(Jobs(args), def);
    hide *;
  }

  /** What has been asked for and what is collected are the jobs so far. */
  predicate Balanced(s: State, jobs: seq<Job>) {
    !s.newRemote && Texts(s.sent) + s.jobList == Entries(jobs) && (jobs == [] <==> s.jobList == "")
  }

  lemma {:induction false} EntriesStep(jobs: seq<Job>, j: Job)
    ensures Entries(jobs + [j]) == Entries(jobs) + Entry(j)
  {
    assert (jobs + [j])[..|jobs|] == jobs;
  }

  /** The texts of one more query and of two more. */
  lemma {:induction false} TextsOnce(qs: seq<Query>, server: string, list: string, e: string)
    ensures Texts(qs + [Query(server, list + e)]) == Texts(qs) + list + e
    ensures Texts(qs + [Query(server, list)]) == Texts(qs) + list
  {
    TextsAppend(qs, Query(server, list + e));
    TextsAppend(qs, Query(server, list));
    hide Texts;
    assert Texts(qs) + (list + e) == Texts(qs) + list + e;
  }

  lemma {:induction false} BalancedStep(s: State, jobs: seq<Job>, j: Job, def: string)
    requires Balanced(s, jobs)
    ensures Balanced(Step(s, Named(j), false, def, {}), jobs + [j])
  {
    EntriesStep(jobs, j);
    TextsOnce(s.sent, s.prev, s.jobList, Entry(j));
    hide Texts, Entries;
    assert Texts(s.sent) + (s.jobList + Entry(j)) == Texts(s.sent) + s.jobList + Entry(j);
  }

  /** For the last operand one query is sent, or two when its server is another. */
  lemma {:induction false} LastSent(s: State, j: Job, def: string)
    requires !s.newRemote
    ensures
      Step(s, Named(j), true, def, {}).sent ==
      if Remote(j, def) && s.prev != "" && j.server != s.prev
      then s.sent + [Query(s.prev, s.jobList)] + [Query(j.server, "" + Entry(j))]
      else s.sent + [Query(if Remote(j, def) then j.server else if s.prev == "" then def else s.prev,
                           s.jobList + Entry(j))]
  {
    assert "" + Entry(j) == Entry(j);
  }

  lemma {:induction false} BalancedEnd(s: State, jobs: seq<Job>, j: Job, def: string)
    requires Balanced(s, jobs)
    ensures Texts(Step(s, Named(j), true, def, {}).sent) == Entries(jobs + [j])
  {
    EntriesStep(jobs, j);
    LastSent(s, j, def);
    hide Texts, Entries, Step, Entry;
    if Remote(j, def) && s.prev != "" && j.server != s.prev {
      var once := s.sent + [Query(s.prev, s.jobList)];
      TextsAppend(s.sent, Query(s.prev, s.jobList));
      TextsAppend(once, Query(j.server, "" + Entry(j)));
      assert Texts(once) + ("" + Entry(j)) == Texts(once) + Entry(j);
    } else {
      TextsOnce(s.sent, if Remote(j, def) then j.server else if s.prev == "" then def else s.prev, s.jobList, Entry(j));
    }
  }

  lemma {:induction false} BalancedSoFar(args: seq<Operand>, i: nat, def: string)
    requires i < |args| && NoneElse(args)
    ensures Balanced(After(args, i, def, {}), Jobs(args[..i]))
  {
    if i > 0 {
      BalancedSoFar(args, i - 1, def);
      JobsStep(args, i);
      if args[i - 1].Named? {
        BalancedStep(After(args, i - 1, def, {}), Jobs(args[..i - 1]), args[i - 1].job, def);
      }
    }
  }

  lemma {:induction false} BalancedLast(s: State, jobs: seq<Job>, op: Operand, def: string)
    requires Balanced(s, jobs) && !op.NotAJob?
    ensures
      var more := if op.Named? then jobs + [op.job] else jobs;
      Texts(Step(s, op, true, def, {}).sent) == Entries(more) <==> more == [] || op.Named?
  {
    if op.Named? {
      BalancedEnd(s, jobs, op.job, def);
    } else {
      assert |Texts(s.sent) + s.jobList| == |Texts(s.sent)| + |s.jobList|;
    }
  }

  /** Whatever their order, the jobs are asked for once each and in order, iff the last operand is legal or none is. */
  lemma {:induction false} NoJobIsLost(args: seq<Operand>, def: string)
    requires NoneElse(args)
    ensures Texts(After(args, |args|, def, {}).sent) == Entries(Jobs(args)) <==>
            Jobs(args) == [] || args[|args| - 1].Named?
  {
    if args != [] {
      var n := |args| - 1;
      BalancedSoFar(args, n, def);
      JobsStep(args, |args|);
      assert args[..|args|] == args;
      BalancedLast(After(args, n, def, {}), Jobs(args[..n]), args[n], def);
    }
  }

  // ----- servers that do not answer -----

  /** The queries in front of the first one whose server is down. */
  function Front(qs: seq<Query>, down: set<string>): seq<Query> {
    if qs == [] || qs[0].server in down then [] else [qs[0]] + Front(qs[1..], down)
  }

  predicate AllUp(qs: seq<Query>, down: set<string>) {
    forall i :: 0 <= i < |qs| ==> qs[i].server !in down
  }

  lemma {:induction false} FrontAll(qs: seq<Query>, down: set<string>)
    requires AllUp(qs, down)
    ensures Front(qs, down) == qs
  {
    if qs != [] {
      assert forall i :: 0 <= i < |qs| - 1 ==> qs[1..][i] == qs[i + 1];
      FrontAll(qs[1..], down);
    }
  }

  lemma {:induction false} FrontUp(qs: seq<Query>, more: seq<Query>, down: set<string>)
    requires AllUp(qs, down)
    ensures Front(qs + more, down) == qs + Front(more, down)
  {
    if qs == [] {
      assert qs + more == more;
    } else {
      assert forall i :: 0 <= i < |qs| - 1 ==> qs[1..][i] == qs[i + 1];
      FrontUp(qs[1..], more, down);
      assert (qs + more)[1..] == qs[1..] + more;
    }
  }

  /** Behind a query that is not sent nothing counts. */
  lemma {:induction false} FrontStuck(qs: seq<Query>, more: seq<Query>, down: set<string>)
    requires !AllUp(qs, down)
    ensures Front(qs + more, down) == Front(qs, down)
  {
    assert (qs + more)[0] == qs[0];
    if qs[0].server !in down {
      assert (qs + more)[1..] == qs[1..] + more;
      var i :| 0 <= i < |qs| && qs[i].server in down;
      assert qs[1..][i - 1] == qs[i];
      FrontStuck(qs[1..], more, down);
    }
  }

  /** With a previous server that is down, no step changes what has been sent. */
  lemma {:induction false} StuckStep(s: State, op: Operand, last: bool, def: string, down: set<string>)
    requires !op.NotAJob? && s.prev != "" && s.prev in down
    ensures Step(s, op, last, def, down).prev == s.prev && Step(s, op, last, def, down).sent == s.sent
  {
  }

  /** Steps only add to what has been sent. */
  lemma {:induction false} StepAdds(s: State, op: Operand, last: bool, def: string, down: set<string>)
    requires !op.NotAJob?
    ensures s.sent <= Step(s, op, last, def, down).sent
  {
  }

  /** The same operands with all servers up and with some down: the same state until a query is not sent; from then on
      the previous server stays the one that is down. */
  predicate Beside(up: State, s: State, down: set<string>) {
    if AllUp(up.sent, down) then s == up else s.prev != "" && s.prev in down && s.sent == Front(up.sent, down)
  }

  lemma {:induction false} BesideStuck(up: State, s: State, op: Operand, last: bool, def: string, down: set<string>)
    requires !op.NotAJob? && Beside(up, s, down) && !AllUp(up.sent, down)
    ensures Beside(Step(up, op, last, def, {}), Step(s, op, last, def, down), down)
    ensures Step(s, op, last, def, down).sent == Front(Step(up, op, last, def, {}).sent, down)
  {
    StuckStep(s, op, last, def, down);
    StepAdds(up, op, last, def, {});
    hide Step, Front;
    var more := Step(up, op, last, def, {}).sent;
    var i :| 0 <= i < |up.sent| && up.sent[i].server in down;
    assert more == up.sent + more[|up.sent|..] && more[i] == up.sent[i];
    FrontStuck(up.sent, more[|up.sent|..], down);
  }

  /** One query more, which is sent when its server is up. */
  lemma {:induction false} OneMore(qs: seq<Query>, q: Query, down: set<string>)
    requires AllUp(qs, down)
    ensures Front(qs + [q], down) == if q.server in down then qs else qs + [q]
    ensures AllUp(qs + [q], down) <==> q.server !in down
  {
    FrontUp(qs, [q], down);
    assert [q][1..] == [];
    assert (qs + [q])[|qs|] == q;
  }

  /** A step that is not for the last operand asks at most once, and then at a server that is known. */
  lemma {:induction false} BesideStep(s: State, op: Operand, def: string, down: set<string>)
    requires !op.NotAJob? && AllUp(s.sent, down)
    ensures Beside(Step(s, op, false, def, {}), Step(s, op, false, def, down), down)
  {
    OneMore(s.sent, Query(s.prev, s.jobList), down);
    FrontAll(s.sent, down);
    hide Front, AllUp;
  }

  /** Asking once or twice. */
  lemma {:induction false} AskInFront(s: State, text: string, server: string, last: bool, down: set<string>)
    requires AllUp(s.sent, down)
    ensures Ask(s, text, server, last, down).sent == Front(Ask(s, text, server, last, {}).sent, down)
  {
    var once := s.sent + [Query(s.prev, text)];
    var again := Query(server, s.jobList);
    OneMore(s.sent, Query(s.prev, text), down);
    if s.prev in down {
      assert once[|s.sent|].server in down;
      FrontStuck(once, [again], down);
    } else {
      OneMore(once, again, down);
    }
    hide Front, AllUp;
  }

  lemma {:induction false} LastInFront(s: State, op: Operand, def: string, down: set<string>)
    requires !op.NotAJob? && AllUp(s.sent, down)
    ensures Step(s, op, true, def, down).sent == Front(Step(s, op, true, def, {}).sent, down)
  {
    FrontAll(s.sent, down);
    if op.Named? {
      var server := op.job.server;
      var list := s.jobList + Entry(op.job);
      hide Ask, Front, AllUp, Entry;
      if !Remote(op.job, def) {
        AskInFront(s.(prev := if s.prev == "" then def else s.prev, jobList := ""), list, server, true, down);
      } else if s.prev == "" || server == s.prev {
        AskInFront(s.(prev := server, jobList := "", newRemote := true), list, server, true, down);
      } else {
        AskInFront(s.(jobList := Entry(op.job), newRemote := true), s.jobList, server, true, down);
      }
    }
  }

  lemma {:induction false} BesideSoFar(args: seq<Operand>, i: nat, def: string, down: set<string>)
    requires i < |args| && NoneElse(args)
    ensures Beside(After(args, i, def, {}), After(args, i, def, down), down)
  {
    if i > 0 {
      var up, s, op := After(args, i - 1, def, {}), After(args, i - 1, def, down), args[i - 1];
      BesideSoFar(args, i - 1, def, down);
      if AllUp(up.sent, down) {
        BesideStep(s, op, def, down);
      } else {
        BesideStuck(up, s, op, false, def, down);
      }
      hide Step, Beside, AllUp;
      assert AllUp(up.sent, down) ==> s == up;
    }
  }

  /** Whatever the order of the operands and whichever servers are down: what is sent is exactly the part of what would
      be sent with all servers up that stands in front of the first query whose server is down. */
  lemma {:induction false} SentInFrontOfDown(args: seq<Operand>, def: string, down: set<string>)
    requires NoneElse(args)
    ensures After(args, |args|, def, down).sent == Front(After(args, |args|, def, {}).sent, down)
  {
    if args != [] {
      var n := |args| - 1;
      var up, s := After(args, n, def, {}), After(args, n, def, down);
      BesideSoFar(args, n, def, down);
      if AllUp(up.sent, down) {
        LastInFront(s, args[n], def, down);
      } else {
        BesideStuck(up, s, args[n], true, def, down);
      }
      hide Step, Front;
    }
  }

  /** The queries that the operands should lead to: for an illegal last one without the last batch. */
  function Due(args: seq<Operand>, def: string): seq<Query> {
    var qs := Batches(Jobs(args), def);
    if qs == [] || args == [] || args[|args| - 1].Named? then qs else qs[..|qs| - 1]
  }

  /** With all servers up and operands in order, what is due is sent. */
  lemma {:induction false} DueIsSent(args: seq<Operand>, def: string)
    requires NoneElse(args) && Ordered(Jobs(args), def)
    ensures After(args, |args|, def, {}).sent == Due(args, def)
  {
    if args == [] || args[|args| - 1].Named? {
      QueriesAreBatches(args, def);
    } else {
      DueIsSentIllegal(args, def);
    }
    hide Ordered, Batches, Jobs, After;
  }

  lemma {:induction false} DueIsSentIllegal(args: seq<Operand>, def: string)
    requires NoneElse(args) && Ordered(Jobs(args), def) && args != [] && !args[|args| - 1].Named?
    ensures After(args, |args|, def, {}).sent == Due(args, def)
  {
    var n := |args| - 1;
    JobsStep(args, |args|);
    assert args[..|args|] == args;
    assert After(args, |args|, def, {}).sent == After(args, n, def, {}).sent;
    hide Ordered, Batches, Jobs, After, Bad, Good, Step;
    var k := Progress(args, n, def);
    GoodSent(After(args, n, def, {}), Jobs(args), def);
  }

  lemma {:induction false} GoodSent(s: State, jobs: seq<Job>, def: string)
    requires Good(s, jobs, def)
    ensures var qs := Batches(jobs, def); s.sent == if qs == [] then qs else qs[..|qs| - 1]
  {
    hide Batches;
  }

  /** With operands in order and any servers down, what is sent is exactly what is due in front of the first batch
      whose server is down. */
  lemma {:induction false} SentUpToFirstDown(args: seq<Operand>, def: string, down: set<string>)
    requires NoneElse(args) && Ordered(Jobs(args), def)
    ensures After(args, |args|, def, down).sent == Front(Due(args, def), down)
  {
    SentInFrontOfDown(args, def, down);
    DueIsSent(args, def);
  }

  /** The queries whose server answers. */
  function Answering(qs: seq<Query>, down: set<string>): seq<Query> {
    if qs == [] then []
    else (if qs[0].server in down then [] else [qs[0]]) + Answering(qs[1..], down)
  }

  /** No server that answers stands behind one that is down. */
  predicate DownStays(servers: seq<string>, down: set<string>) {
    forall i, k :: 0 <= i < k < |servers| && servers[i] in down ==> servers[k] in down
  }

  function Servers(qs: seq<Query>): (ss: seq<string>)
    ensures |ss| == |qs| && forall i :: 0 <= i < |ss| ==> ss[i] == qs[i].server
  {
    if qs == [] then [] else Servers(qs[..|qs| - 1]) + [qs[|qs| - 1].server]
  }

  function Homes(jobs: seq<Job>, def: string): (hs: seq<string>)
    ensures |hs| == |jobs| && forall i :: 0 <= i < |hs| ==> hs[i] == Home(jobs[i], def)
  {
    if jobs == [] then [] else Homes(jobs[..|jobs| - 1], def) + [Home(jobs[|jobs| - 1], def)]
  }

  lemma {:induction false} FrontAnswers(qs: seq<Query>, down: set<string>)
    ensures Front(qs, down) == Answering(qs, down) <==> DownStays(Servers(qs), down)
  {
    if qs != [] {
      if qs[0].server in down {
        DownFirst(qs, down);
      } else {
        FrontAnswers(qs[1..], down);
        UpFirst(qs, down);
      }
    }
  }

  lemma {:induction false} DownFirst(qs: seq<Query>, down: set<string>)
    requires qs != [] && qs[0].server in down
    ensures Front(qs, down) == Answering(qs, down) <==> DownStays(Servers(qs), down)
  {
    var rest := qs[1..];
    assert forall i :: 0 <= i < |rest| ==> Servers(qs)[i + 1] == Servers(rest)[i];
    NoAnswer(rest, down);
    assert Servers(qs)[0] in down;
    if Answering(rest, down) == [] {
      assert forall k :: 1 <= k < |qs| ==> Servers(qs)[k] == Servers(rest)[k - 1];
    } else {
      var k :| 0 <= k < |rest| && rest[k].server !in down;
      assert Servers(qs)[k + 1] !in down;
    }
  }

  lemma {:induction false} UpFirst(qs: seq<Query>, down: set<string>)
    requires qs != [] && qs[0].server !in down
    requires Front(qs[1..], down) == Answering(qs[1..], down) <==> DownStays(Servers(qs[1..]), down)
    ensures Front(qs, down) == Answering(qs, down) <==> DownStays(Servers(qs), down)
  {
    assert Front(qs, down) == [qs[0]] + Front(qs[1..], down);
    assert Answering(qs, down) == [qs[0]] + Answering(qs[1..], down);
    assert ([qs[0]] + Front(qs[1..], down))[1..] == Front(qs[1..], down);
    assert ([qs[0]] + Answering(qs[1..], down))[1..] == Answering(qs[1..], down);
    hide Front, Answering;
    DownStaysBehind(Servers(qs), down);
    assert Servers(qs)[1..] == Servers(qs[1..]);
    hide DownStays;
  }

  lemma {:induction false} DownStaysBehind(xs: seq<string>, down: set<string>)
    requires xs != [] && xs[0] !in down
    ensures DownStays(xs, down) <==> DownStays(xs[1..], down)
  {
    var rest := xs[1..];
    assert forall i :: 1 <= i < |xs| ==> xs[i] == rest[i - 1];
    assert forall i :: 0 <= i < |rest| ==> rest[i] == xs[i + 1];
  }

  lemma {:induction false} NoAnswer(qs: seq<Query>, down: set<string>)
    ensures Answering(qs, down) == [] <==> forall k :: 0 <= k < |qs| ==> qs[k].server in down
  {
    if qs != [] {
      NoAnswer(qs[1..], down);
      if Answering(qs[1..], down) == [] {
        assert forall k :: 1 <= k < |qs| ==> qs[k] == qs[1..][k - 1];
      }
    }
  }

  predicate NoneDown(servers: seq<string>, down: set<string>) {
    forall i :: 0 <= i < |servers| ==> servers[i] !in down
  }

  lemma {:induction false} DownStaysStep(xs: seq<string>, x: string, down: set<string>)
    ensures DownStays(xs + [x], down) <==> DownStays(xs, down) && (x in down || NoneDown(xs, down))
    ensures NoneDown(xs + [x], down) <==> NoneDown(xs, down) && x !in down
    ensures xs != [] && DownStays(xs, down) && xs[|xs| - 1] !in down ==> NoneDown(xs, down)
    ensures xs != [] && NoneDown(xs, down) ==> xs[|xs| - 1] !in down
  {
    var all := xs + [x];
    assert forall i :: 0 <= i < |xs| ==> all[i] == xs[i];
    assert all[|xs|] == x;
  }

  predicate Alike(hs: seq<string>, ss: seq<string>, down: set<string>) {
    && (DownStays(hs, down) <==> DownStays(ss, down)) && (NoneDown(hs, down) <==> NoneDown(ss, down))
    && (if hs == [] then ss == [] else ss != [] && hs[|hs| - 1] == ss[|ss| - 1])
  }

  lemma {:induction false} AlikeStep(hs: seq<string>, ss: seq<string>, h: string, down: set<string>)
    requires Alike(hs, ss, down)
    ensures Alike(hs + [h], if ss != [] && ss[|ss| - 1] == h then ss else ss + [h], down)
  {
    DownStaysStep(hs, h, down);
    DownStaysStep(ss, h, down);
    hide DownStays, NoneDown;
  }

  /** The servers of the batches are the homes of the jobs, without repetitions. */
  lemma {:induction false} DownStaysInBatches(jobs: seq<Job>, def: string, down: set<string>)
    ensures Alike(Homes(jobs, def), Servers(Batches(jobs, def)), down)
  {
    if jobs == [] {
    } else {
      var n := |jobs| - 1;
      var some, j := jobs[..n], jobs[n];
      assert jobs == some + [j];
      hide *;
      DownStaysInBatches(some, def, down);
      ServersStep(some, j, def);
      AlikeStep(Homes(some, def), Servers(Batches(some, def)), Home(j, def), down);
    }
  }

  lemma {:induction false} ServersStep(jobs: seq<Job>, j: Job, def: string)
    ensures
      var ss, h := Servers(Batches(jobs, def)), Home(j, def);
      Homes(jobs + [j], def) == Homes(jobs, def) + [h] &&
      Servers(Batches(jobs + [j], def)) == if ss != [] && ss[|ss| - 1] == h then ss else ss + [h]
  {
    var all := jobs + [j];
    assert all[..|jobs|] == jobs;
    assert Homes(all, def) == Homes(jobs, def) + [Home(j, def)];
    BatchesStep(jobs, j, def);
    hide Batches, Homes;
    var qs, more := Batches(jobs, def), Batches(all, def);
    if |more| == |qs| {
      assert more[..|qs| - 1] == qs[..|qs| - 1];
    } else {
      assert more[..|qs|] == qs;
    }
  }

  /** In any order, every query of the run with all servers up whose server answers is sent, if and only if none of them
      stands behind one whose server is down. */
  lemma {:induction false} DownQueriesTakeAlong(args: seq<Operand>, def: string, down: set<string>)
    requires NoneElse(args)
    ensures
      var up := After(args, |args|, def, {}).sent;
      After(args, |args|, def, down).sent == Answering(up, down) <==> DownStays(Servers(up), down)
  {
    SentInFrontOfDown(args, def, down);
    FrontAnswers(After(args, |args|, def, {}).sent, down);
  }

  /** With operands in order and a legal last one, every job whose server answers is asked for, if and only if none of
      these jobs stands behind one whose server is down. */
  lemma {:induction false} DownServersTakeAlong(args: seq<Operand>, def: string, down: set<string>)
    requires NoneElse(args) && Ordered(Jobs(args), def) && (Jobs(args) == [] || args[|args| - 1].Named?)
    ensures After(args, |args|, def, down).sent == Answering(Batches(Jobs(args), def), down) <==>
            DownStays(Homes(Jobs(args), def), down)
  {
    SentUpToFirstDown(args, def, down);
    FrontAnswers(Batches(Jobs(args), def), down);
    DownStaysInBatches(Jobs(args), def, down);
  }

  /** For example here, although the server of y and z may answer. */
  lemma {:induction false} OneDownTakesNextAlong(x: Job, y: Job, z: Job, def: string)
    requires Remote(x, def) && Remote(y, def) && y.server == z.server != x.server
    ensures After([Named(x), Named(y), Named(z)], 3, def, {x.server}).sent == []
  {
    var args, down := [Named(x), Named(y), Named(z)], {x.server};
    assert After(args, 1, def, down) == State("" + Entry(x), x.server, false, []);
    assert After(args, 2, def, down) == State(Entry(y), x.server, true, []);
  }
}
