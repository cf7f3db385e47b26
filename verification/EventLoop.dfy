/** Waiting for spawned tasks (wait_for_task and its callers, src/cmds/pbsdsh.c:106-182, 371-392). */
module EventLoop {
  const TM_NULL_TASK: int := 0
  const TM_NULL_EVENT: int := 0
  const TM_ERROR_EVENT: int := -1
  const TM_SUCCESS: int := 0
  const TM_ENOTFOUND: int := 17006

  /** What an event number was registered for: the spawn of slot c, or the end of the task of slot c. */
  datatype Info = Spawning(c: nat) | Ending(c: nat)

  /** A call of tm_spawn, for a slot and a node of the list, and its return code. */
  datatype Launch = Launch(slot: nat, node: nat, rc: int)

  /** A call of tm_kill. */
  datatype Signal = Signal(task: int, sig: int)

  /** What a poll changes: the outstanding events, the task ids by event and by slot. */
  datatype Stored = Stored(pending: set<int>, tasks: map<int, int>, tid: seq<int>)

  /** A failure or the null event changes nothing; any other event was outstanding, and for a successful spawn its task
      id is stored. */
  predicate Polled(rc: int, event: int, errno: int, info: map<int, Info>, a: Stored, b: Stored) {
    if rc != TM_SUCCESS || event == TM_NULL_EVENT then b == a && (rc == TM_SUCCESS ==> a.pending != {})
    else
      && event in a.pending && event in info && b.pending == a.pending - {event}
      && if info[event].Spawning? && errno == 0
         then
           var c := info[event].c;
           c < |a.tid| == |b.tid| && b.tasks == a.tasks[event := b.tid[c]] && b.tid == a.tid[c := b.tid[c]]
         else b.tasks == a.tasks && b.tid == a.tid
  }

  /** The task manager interface (src/lib/Libifl/tm.c), which answers as it likes, and with the null event once its
      connection has ended. */
  class TaskManager {
    var next: int                // the numbers 1 .. next - 1 have been handed out
    var info: map<int, Info>     // the registered ones
    var pending: set<int>        // those of them that are still to be delivered
    ghost var tasks: map<int, int>  // the task ids stored by successful spawns, by their event
    ghost var asked: set<nat>       // the slots whose task's end was asked for
    ghost var polls: nat
    ghost var broken: bool          // a poll failed although events were outstanding
    var ended: bool                 // the other side has closed the connection
    ghost var launches: seq<Launch> // all calls of tm_spawn
    ghost var killed: seq<Signal>   // all calls of tm_kill

    ghost predicate Valid()
      reads `next, `info, `pending, `tasks
    {
      next > 0 && pending <= info.Keys && (forall e :: e in info ==> 0 < e < next) && tasks.Keys <= info.Keys - pending
    }

    constructor ()
      ensures Valid() && next == 1 && info == map[] && pending == {} && tasks == map[] && asked == {}
      ensures polls == 0 && !broken && launches == [] && killed == [] && !ended
    {
      next, info, pending, tasks, asked, polls, broken := 1, map[], {}, map[], {}, 0, false;
      launches, killed, ended := [], [], false;
    }

    /** tm_spawn, where the event variable held was. A failure may leave it or store a number that nothing registers. */
    method Spawn(c: nat, node: nat, was: int) returns (rc: int, event: int)
      requires Valid() && was < next
      modifies this`next, this`info, this`pending, this`launches
      ensures launches == old(launches) + [Launch(c, node, rc)]
      ensures Valid() && next >= old(next) && event < next
      ensures rc == TM_SUCCESS ==> event == old(next) && info == old(info)[event := Spawning(c)] &&
                                   pending == old(pending) + {event}
      ensures rc != TM_SUCCESS ==> (event == was || event >= old(next)) && info == old(info) && pending == old(pending)
    {
      rc := *;
      var numbered: bool := *;
      event := was;
      if rc == TM_SUCCESS || numbered {
        event, next := next, next + 1;
      }
      if rc == TM_SUCCESS {
        info, pending := info[event := Spawning(c)], pending + {event};
      }
      launches := launches + [Launch(c, node, rc)];
    }

    /** tm_obit for the task of slot c. */
    method Obit(c: nat, was: int) returns (rc: int, event: int)
      requires Valid() && was < next
      modifies this`next, this`info, this`pending, this`asked
      ensures Valid() && next >= old(next) && event < next && asked == old(asked) + {c}
      ensures if rc == TM_SUCCESS && event != TM_NULL_EVENT && event != TM_ERROR_EVENT
              then event == old(next) && info == old(info)[event := Ending(c)] && pending == old(pending) + {event}
              else (event == was || event <= 0 || event >= old(next)) && info == old(info) && pending == old(pending)
    {
      asked := asked + {c};
      rc := *;
      event := was;
      var kind: int := *;
      if kind == 1 {
        event := if rc == TM_SUCCESS then TM_NULL_EVENT else was;
      } else if rc == TM_SUCCESS && kind == 2 {
        event := TM_ERROR_EVENT;
      } else {
        event, next := next, next + 1;
        if rc == TM_SUCCESS {
          info, pending := info[event := Ending(c)], pending + {event};
        }
      }
    }

    /** tm_poll: delivers one of the outstanding events. A successful spawn's task id goes where tm_spawn was told. Once
        the connection has ended every answer is the null event, as a success. */
    method Poll(tid: array<int>) returns (rc: int, event: int, errno: int)
      requires Valid() && forall e :: e in info && info[e].Spawning? ==> info[e].c < tid.Length
      modifies this`pending, this`tasks, this`polls, this`broken, this`ended, tid
      ensures Valid() && polls == old(polls) + 1
      ensures old(pending) == {} ==> rc != TM_SUCCESS && broken == old(broken)
      ensures old(pending) != {} ==> broken == (old(broken) || rc != TM_SUCCESS)
      ensures if rc == TM_SUCCESS then ended == (event == TM_NULL_EVENT) else ended == old(ended)
      ensures old(ended && pending != {}) ==> rc == TM_SUCCESS && event == TM_NULL_EVENT
      ensures Polled(rc, event, errno, info, old(Stored(pending, tasks, tid[..])), Stored(pending, tasks, tid[..]))
    {
      polls := polls + 1;
      event, errno := TM_ERROR_EVENT, 0;
      if pending == {} {
        rc := TM_ENOTFOUND;
        return;
      }
      var closed: bool := *;
      if ended || closed {
        ended, rc, event := true, TM_SUCCESS, TM_NULL_EVENT;
        return;
      }
      rc := *;
      if rc != TM_SUCCESS {
        broken := true;
        return;
      }
      event := Some(pending);
      errno := *;
      pending := pending - {event};
      if info[event].Spawning? && errno == 0 {
        var task: int := *;
        tid[info[event].c] := task;
        tasks := tasks[event := task];
      }
    }

    /** Any element. */
    static method Some(s: set<int>) returns (e: int)
      requires s != {}
      ensures e in s
    {
      assert (forall x :: x !in s) ==> s == {};
      e :| e in s;
    }

    method Kill(task: int, sig: int)
      modifies this`killed
      ensures killed == old(killed) + [Signal(task, sig)]
    {
      killed := killed + [Signal(task, sig)];
    }
  }

  /** The signal to each id in ts that is not null, in order. */
  function Kills(ts: seq<int>, sig: int): seq<Signal> {
    if ts == [] then []
    else
      var n := |ts| - 1;
      Kills(ts[..n], sig) + if ts[n] == TM_NULL_TASK then [] else [Signal(ts[n], sig)]
  }

  lemma {:induction false} KillsNone(sig: int)
    ensures Kills([], sig) == []
  {
  }

  lemma {:induction false} KillsStep(ts: seq<int>, t: int, sig: int)
    ensures Kills(ts + [t], sig) == Kills(ts, sig) + if t == TM_NULL_TASK then [] else [Signal(t, sig)]
  {
    assert (ts + [t])[..|ts|] == ts;
  }

  /** Each gets the signal as often as it is in ts, and nobody else gets any. */
  lemma {:induction false} KillsAre(ts: seq<int>, sig: int)
    ensures forall x :: x in Kills(ts, sig) ==> x.sig == sig && x.task != TM_NULL_TASK
    ensures forall t :: t != TM_NULL_TASK ==> multiset(Kills(ts, sig))[Signal(t, sig)] == multiset(ts)[t]
  {
    if ts != [] {
      KillsAre(ts[..|ts| - 1], sig);
      assert ts == ts[..|ts| - 1] + [ts[|ts| - 1]];
    }
  }

  /** The slots from lo to hi whose event is in p. */
  ghost function SlotsIn(evs: seq<int>, lo: nat, hi: nat, p: set<int>): set<nat>
    requires hi <= |evs|
  {
    set c: nat | lo <= c < hi && evs[c] in p
  }

  /** Slot c alone held e. */
  lemma {:induction false} SlotLeaves(evs: seq<int>, lo: nat, hi: nat, p: set<int>, e: int, c: nat)
    requires lo <= c < hi <= |evs| && evs[c] == e && e !in p
    requires forall d :: lo <= d < hi && evs[d] == e ==> d == c
    ensures |SlotsIn(evs, lo, hi, p + {e})| == |SlotsIn(evs, lo, hi, p)| + 1
  {
    assert SlotsIn(evs, lo, hi, p + {e}) == SlotsIn(evs, lo, hi, p) + {c};
  }

  /** No slot holds e. */
  lemma {:induction false} NoSlotLeaves(evs: seq<int>, lo: nat, hi: nat, p: set<int>, e: int)
    requires hi <= |evs| && forall d :: lo <= d < hi ==> evs[d] != e
    ensures SlotsIn(evs, lo, hi, p + {e}) == SlotsIn(evs, lo, hi, p)
  {
  }

  /** A number that does not count for slot c is replaced by another such. */
  lemma {:induction false} SlotIdle(evs: seq<int>, later: seq<int>, lo: nat, hi: nat, p: set<int>, c: nat)
    requires lo <= c < hi <= |evs| == |later| && later == evs[c := later[c]] && evs[c] !in p && later[c] !in p
    ensures SlotsIn(later, lo, hi, p) == SlotsIn(evs, lo, hi, p)
  {
  }

  lemma {:induction false} SlotsNext(evs: seq<int>, lo: nat, hi: nat, p: set<int>)
    requires lo <= hi < |evs|
    ensures SlotsIn(evs, lo, lo, p) == {}
    ensures SlotsIn(evs, lo, hi + 1, p) == SlotsIn(evs, lo, hi, p) + if evs[hi] in p then {hi} else {}
    ensures |SlotsIn(evs, lo, hi + 1, p)| == |SlotsIn(evs, lo, hi, p)| + if evs[hi] in p then 1 else 0
  {
    assert SlotsIn(evs, lo, lo, p) == {};
    assert SlotsIn(evs, lo, hi + 1, p) == SlotsIn(evs, lo, hi, p) + if evs[hi] in p then {hi} else {};
  }

  lemma {:induction false} SlotsBounded(evs: seq<int>, lo: nat, hi: nat, p: set<int>)
    requires lo <= hi <= |evs|
    ensures |SlotsIn(evs, lo, hi, p)| <= hi - lo
    decreases hi
  {
    if lo < hi {
      SlotsBounded(evs, lo, hi - 1, p);
      SlotsNext(evs, lo, hi - 1, p);
    } else {
      assert SlotsIn(evs, lo, hi, p) == {};
    }
  }

  /** How many spawns succeeded. */
  function Count(ok: seq<bool>): nat {
    if ok == [] then 0 else Count(ok[..|ok| - 1]) + if ok[|ok| - 1] then 1 else 0
  }

  /** No spawn succeeded after one that failed. */
  predicate Covered(ok: seq<bool>) {
    forall i, j :: 0 <= i < j < |ok| && ok[j] ==> ok[i]
  }

  lemma {:induction false} CountFirst(ok: seq<bool>, n: nat)
    requires n <= |ok|
    ensures Count(ok[..n]) <= n && (Count(ok[..n]) == n <==> forall i :: 0 <= i < n ==> ok[i])
    ensures Count(ok[..n]) <= Count(ok) && (Count(ok[..n]) == Count(ok) <==> forall i :: n <= i < |ok| ==> !ok[i])
    decreases |ok| + n
  {
    if n < |ok| {
      assert ok[..|ok| - 1][..n] == ok[..n];
      CountFirst(ok[..|ok| - 1], n);
      assert forall i :: n <= i < |ok| - 1 ==> ok[i] == ok[..|ok| - 1][i];
    } else if n > 0 {
      assert ok[..n] == ok;
      CountFirst(ok, n - 1);
      assert ok[..|ok| - 1] == ok[..n - 1];
    }
  }

  /** As many slots from the start as there were successes hold them all iff no success follows a failure. */
  lemma {:induction false} WindowCovers(ok: seq<bool>)
    ensures Count(ok) <= |ok|
    ensures Count(ok[..Count(ok)]) == Count(ok) <==> Covered(ok)
    ensures Covered(ok) ==> forall i :: 0 <= i < |ok| ==> (ok[i] <==> i < Count(ok))
  {
    assert ok[..|ok|] == ok;
    CountFirst(ok, |ok|);
    var n := Count(ok);
    CountFirst(ok, n);
    if Covered(ok) {
      forall i | 0 <= i < n
        ensures ok[i]
      {
        CountFirst(ok, i);
      }
    }
  }

  lemma {:induction false} CountSlots(evs: seq<int>, ok: seq<bool>, hi: nat, p: set<int>)
    requires hi <= |ok| && hi <= |evs| && forall i :: 0 <= i < hi ==> (evs[i] in p <==> ok[i])
    ensures |SlotsIn(evs, 0, hi, p)| == Count(ok[..hi])
  {
    if hi > 0 {
      CountSlots(evs, ok, hi - 1, p);
      SlotsNext(evs, 0, hi - 1, p);
      assert ok[..hi][..hi - 1] == ok[..hi - 1];
    } else {
      assert SlotsIn(evs, 0, hi, p) == {};
    }
  }

  /** What a wait works on. */
  datatype Snapshot = Snapshot(
    obits: seq<int>, asked: set<nat>, info: map<int, Info>, pending: set<int>, tasks: map<int, int>)

  /** A poll for the window from lo to hi, what it delivered and the counters in front of it. */
  datatype Delivery = Delivery(lo: nat, hi: nat, event: int, errno: int, foreign: nat, nobits: int)

  /** Only the slots from lo to hi get an event, and only spawns that were outstanding are answered. */
  ghost predicate Kept(a: Snapshot, b: Snapshot, lo: nat, hi: nat) {
    && |a.obits| == |b.obits|
    && (forall d :: 0 <= d < |a.obits| && !(lo <= d < hi) ==> b.obits[d] == a.obits[d])
    && a.asked <= b.asked
    && (forall d :: d in b.asked && !(lo <= d < hi) ==> d in a.asked)
    && (forall e :: e in a.info ==> e in b.info && b.info[e] == a.info[e])
    && (forall e :: e in b.pending && e in b.info && b.info[e].Spawning? ==> e in a.pending && e in a.info)
    && (forall e :: e in b.info && e !in a.info ==> b.info[e].Ending?)
    && a.tasks.Keys <= b.tasks.Keys
    && (forall e :: e in b.tasks && e !in a.tasks ==> e in a.pending && e in a.info && a.info[e].Spawning?)
  }

  lemma {:induction false} KeptSame(a: Snapshot, lo: nat, hi: nat)
    requires a.pending <= a.info.Keys
    ensures Kept(a, a, lo, hi)
  {
  }

  lemma {:induction false} KeptTwice(a: Snapshot, b: Snapshot, c: Snapshot, lo: nat, hi: nat)
    requires Kept(a, b, lo, hi) && Kept(b, c, lo, hi)
    ensures Kept(a, c, lo, hi)
  {
    forall e | e in c.tasks && e !in a.tasks
      ensures e in a.pending && e in a.info && a.info[e].Spawning?
    {
      if e !in b.tasks {
        assert e in b.pending && e in b.info;
      }
    }
  }

  lemma {:induction false} PolledOne(rc: int, event: int, errno: int, info: map<int, Info>, x: Stored, y: Stored)
    requires Polled(rc, event, errno, info, x, y) && rc == TM_SUCCESS && event != TM_NULL_EVENT
    ensures y.pending + {event} == x.pending
  {
  }

  lemma {:induction false} PolledNothing(rc: int, event: int, errno: int, info: map<int, Info>, x: Stored, y: Stored)
    requires Polled(rc, event, errno, info, x, y) && (rc != TM_SUCCESS || event == TM_NULL_EVENT)
    ensures y == x && (rc == TM_SUCCESS ==> x.pending != {})
  {
  }

  /** A poll delivers one event or none, and may store one task id. */
  lemma {:induction false} KeptByPoll(rc: int, event: int, errno: int, a: Snapshot, b: Snapshot, x: Stored, y: Stored,
                                      lo: nat, hi: nat)
    requires b.obits == a.obits && b.asked == a.asked && b.info == a.info && a.pending <= a.info.Keys
    requires Polled(rc, event, errno, a.info, x, y)
    requires a.pending == x.pending && a.tasks == x.tasks && b.pending == y.pending && b.tasks == y.tasks
    ensures Kept(a, b, lo, hi)
  {
  }

  lemma {:induction false} KeptWider(a: Snapshot, b: Snapshot, c: nat, lo: nat, hi: nat)
    requires lo <= c < hi && Kept(a, b, c, c + 1)
    ensures Kept(a, b, lo, hi)
  {
  }

  /** The task ids in slots are null now, the others as before. */
  predicate Nulled(a: seq<int>, b: seq<int>, slots: set<nat>) {
    |b| == |a| && forall c :: 0 <= c < |a| ==> b[c] == if c in slots then TM_NULL_TASK else a[c]
  }

  /** The count of ends when k null answers have each taken away z. */
  function After(nobits: int, z: nat, k: nat): int {
    nobits - k * z
  }

  /** After each of the first n null answers the wait goes on. */
  predicate Waiting(nspawned: int, nobits: int, z: nat, n: nat) {
    forall k :: 0 <= k < n ==> nspawned != 0 || After(nobits, z, k) != 0
  }

  lemma {:induction false} WaitingNext(nspawned: int, nobits: int, z: nat, n: nat)
    requires Waiting(nspawned, nobits, z, n) && (nspawned != 0 || After(nobits, z, n) != 0)
    ensures Waiting(nspawned, nobits, z, n + 1)
  {
  }

  lemma {:induction false} AfterSteps(nobits: int, z: nat, k: nat)
    ensures After(nobits, z, 0) == nobits && After(nobits, z, k + 1) == After(nobits, z, k) - z
  {
  }

  /** The slots that k null answers have cleared. */
  function ClearedBy(k: nat, slots: set<nat>): set<nat> {
    if k > 0 then slots else {}
  }

  lemma {:induction false} NulledNone(a: seq<int>, slots: set<nat>)
    ensures Nulled(a, a, ClearedBy(0, slots))
  {
  }

  lemma {:induction false} NulledAgain(a: seq<int>, b: seq<int>, c: seq<int>, k: nat, slots: set<nat>)
    requires Nulled(a, b, ClearedBy(k, slots)) && Nulled(b, c, slots)
    ensures Nulled(a, c, ClearedBy(k + 1, slots))
  {
  }

  /** Null answers bring the count to 0 iff z divides it. */
  lemma {:induction false} NullAnswersEnd(nobits: nat, z: nat)
    ensures (exists k: nat :: After(nobits, z, k) == 0) <==> nobits == 0 || (z > 0 && nobits % z == 0)
  {
    if z > 0 && nobits % z == 0 {
      assert After(nobits, z, nobits / z) == 0;
    } else if nobits == 0 {
      assert After(nobits, z, 0) == 0;
    }
    forall k: nat | After(nobits, z, k) == 0 && nobits > 0
      ensures z > 0 && nobits % z == 0
    {
      assert z != 0;
      Multiple(k, z);
    }
  }

  lemma {:induction false} Multiple(k: nat, z: nat)
    requires z > 0
    ensures (k * z) % z == 0
  {
    var d, r := k - k * z / z, (k * z) % z;
    assert z * d == r;
    assert d >= 1 ==> z * d >= z;
    assert d <= -1 ==> z * d + z <= 0;
  }

  /** With the end of a task outstanding and one other slot without a number for its end, one null answer ends the
      wait. */
  lemma {:induction false} NullEventEndsTheWait(evs: seq<int>)
    requires evs == [TM_NULL_EVENT, 5]
    ensures |SlotsIn(evs, 0, 2, {5})| == 1 && |SlotsIn(evs, 0, 2, {TM_NULL_EVENT})| == 1 && After(1, 1, 1) == 0
  {
    hide SlotsIn;
    SlotsNext(evs, 0, 0, {5});
    SlotsNext(evs, 0, 1, {5});
    SlotsNext(evs, 0, 0, {TM_NULL_EVENT});
    SlotsNext(evs, 0, 1, {TM_NULL_EVENT});
  }

  /** With two other such slots none ever does. */
  lemma {:induction false} NullEventsNeverEnd(evs: seq<int>)
    requires evs == [TM_NULL_EVENT, 5, TM_NULL_EVENT]
    ensures |SlotsIn(evs, 0, 3, {5})| == 1 && |SlotsIn(evs, 0, 3, {TM_NULL_EVENT})| == 2
    ensures !exists k: nat :: After(1, 2, k) == 0
  {
    NullAnswersEnd(1, 2);
    NullEventEndsTheWait(evs[..2]);
    assert SlotsIn(evs[..2], 0, 2, {5}) == SlotsIn(evs, 0, 2, {5});
    assert SlotsIn(evs[..2], 0, 2, {TM_NULL_EVENT}) == SlotsIn(evs, 0, 2, {TM_NULL_EVENT});
    SlotsNext(evs, 0, 2, {5});
    SlotsNext(evs, 0, 2, {TM_NULL_EVENT});
  }

  /** One more call, for slot c and the node, with this success. */
  predicate Launched(before: seq<Launch>, now: seq<Launch>, c: nat, node: nat, done: bool) {
    var n := |before|;
    && |now| == n + 1 && now[..n] == before
    && now[n].slot == c && now[n].node == node && (done <==> now[n].rc == TM_SUCCESS)
  }

  /** The calls: one for each copy in turn, on the nodes in turn, with these successes. */
  predicate AllLaunched(calls: seq<Launch>, start: nat, nodes: nat, ok: seq<bool>)
    requires nodes > 0
  {
    && |calls| == |ok|
    && forall i :: 0 <= i < |ok| ==>
         calls[i].slot == i && calls[i].node == (start + i) % nodes && (ok[i] <==> calls[i].rc == TM_SUCCESS)
  }

  lemma {:induction false} LaunchedNext(before: seq<Launch>, now: seq<Launch>, start: nat, nodes: nat, ok: seq<bool>,
                                        done: bool)
    requires nodes > 0 && AllLaunched(before, start, nodes, ok)
    requires Launched(before, now, |ok|, (start + |ok|) % nodes, done)
    ensures AllLaunched(now, start, nodes, ok + [done])
  {
    assert forall i :: 0 <= i < |ok| ==> now[i] == before[i];
  }

  class Dsh {
    const tm: TaskManager
    const noObit: bool
    const tid: array<int>
    const eventsSpawn: array<int>
    const eventsObit: array<int>
    var nspawned: int
    var firePhasers: int
    ghost var caught: seq<int>      // the signals that have come in so far

    /** Every variable is null at first. */
    constructor (maxEvents: nat, noObit: bool)
      ensures fresh(tm) && fresh(tid) && fresh(eventsSpawn) && fresh(eventsObit)
      ensures Valid() && tid.Length == maxEvents && this.noObit == noObit && nspawned == 0 && firePhasers == 0
      ensures tm.info == map[] && tm.pending == {} && tm.asked == {} && tm.polls == 0 && !tm.broken && !tm.ended
      ensures tm.launches == [] && tm.killed == [] && caught == []
    {
      tm := new TaskManager();
      this.noObit := noObit;
      tid := new int[maxEvents](_ => TM_NULL_TASK);
      eventsSpawn := new int[maxEvents](_ => TM_NULL_EVENT);
      eventsObit := new int[maxEvents](_ => TM_NULL_EVENT);
      nspawned, firePhasers, caught := 0, 0, [];
    }

    /** The flag is the signal that came in last, 0 when none has. */
    ghost predicate Flagged()
      reads `firePhasers, `caught
    {
      (caught == [] ==> firePhasers == 0) && (caught != [] ==> firePhasers == caught[|caught| - 1] && firePhasers != 0)
    }

    lemma {:induction false} FlagIsLast()
      requires Flagged() && firePhasers != 0
      ensures caught != [] && firePhasers == caught[|caught| - 1]
    {
    }

    /** The signals that come in while they are let in: bailout notes one. */
    method LetSignalsIn()
      requires Flagged()
      modifies this`firePhasers, this`caught
      ensures Flagged() && old(caught) <= caught
    {
      var sig: nat := *;
      if sig != 0 {
        firePhasers := sig;
        caught := caught + [sig];
      }
    }

    /** The arrays hold the registered events, each in the one slot that it was registered for. */
    ghost predicate Numbers()
      reads tm`next, tm`info, tm`pending, tm`tasks, eventsSpawn, eventsObit
    {
      && tm.Valid()
      && eventsObit.Length == eventsSpawn.Length
      && (forall c :: 0 <= c < eventsSpawn.Length ==> eventsSpawn[c] < tm.next)
      && (forall c :: 0 <= c < eventsObit.Length ==> eventsObit[c] < tm.next)
      && (forall c :: 0 <= c < eventsSpawn.Length && eventsSpawn[c] in tm.info ==>
            tm.info[eventsSpawn[c]] == Spawning(c))
      && (forall c :: 0 <= c < eventsObit.Length && eventsObit[c] in tm.info ==> tm.info[eventsObit[c]] == Ending(c))
      && (forall e :: e in tm.info && tm.info[e].Spawning? ==>
            tm.info[e].c < eventsSpawn.Length && eventsSpawn[tm.info[e].c] == e)
      && (forall e :: e in tm.info && tm.info[e].Ending? ==>
            tm.info[e].c < eventsObit.Length && eventsObit[tm.info[e].c] == e)
    }

    /** The task id of slot c: stored when the spawn was acknowledged, null again once the task's end was reported. */
    ghost function TaskOf(c: nat): int
      requires c < eventsSpawn.Length == eventsObit.Length
      reads tm`info, tm`pending, tm`tasks, eventsSpawn, eventsObit
    {
      if eventsObit[c] in tm.info && eventsObit[c] !in tm.pending then TM_NULL_TASK
      else if eventsSpawn[c] in tm.tasks then tm.tasks[eventsSpawn[c]]
      else TM_NULL_TASK
    }

    ghost predicate Shape()
      reads tm`next, tm`info, tm`pending, tm`tasks, eventsSpawn, eventsObit
    {
      && Numbers()
      && tid.Length == eventsSpawn.Length
      && tid != eventsSpawn && tid != eventsObit && eventsSpawn != eventsObit
      && (forall c :: 0 <= c < tid.Length && eventsObit[c] in tm.info ==> Acknowledged(c))
    }

    ghost predicate Acknowledged(c: nat)
      requires c < eventsSpawn.Length
      reads tm`info, tm`pending, eventsSpawn
    {
      eventsSpawn[c] in tm.info && eventsSpawn[c] !in tm.pending
    }

    ghost predicate Valid()
      reads tm`next, tm`info, tm`pending, tm`tasks, tid, eventsSpawn, eventsObit
    {
      Shape() && forall c :: 0 <= c < tid.Length ==> tid[c] == TaskOf(c)
    }

    /** The end of each acknowledged task from lo to hi was asked for, unless nobody wants to know. */
    ghost predicate Asked(lo: nat, hi: nat)
      requires hi <= eventsSpawn.Length
      reads tm`asked, tm`tasks, eventsSpawn
    {
      forall c :: lo <= c < hi ==> (c in tm.asked <==> !noObit && eventsSpawn[c] in tm.tasks)
    }

    /** Only ends of tasks from lo to hi are outstanding. */
    ghost predicate OwnObits(lo: nat, hi: nat)
      requires tm.Valid()
      reads tm`next, tm`info, tm`pending, tm`tasks
    {
      forall e :: e in tm.pending && tm.info[e].Ending? ==> lo <= tm.info[e].c < hi
    }

    /** Asks for the end of the task of slot c. */
    method Watch(c: nat, nobits: int) returns (nb: int)
      requires Valid() && c < tid.Length && Acknowledged(c) && eventsObit[c] !in tm.info
      modifies tm`next, tm`info, tm`pending, tm`asked, eventsObit
      ensures Valid() && tm.asked == old(tm.asked) + {c}
      ensures Watched(c, old(tm.info), old(tm.pending), nobits, nb)
      ensures eventsObit[..] == old(eventsObit[..])[c := eventsObit[c]]
    {
      nb := nobits;
      var rc, event := tm.Obit(c, eventsObit[c]);
      eventsObit[c] := event;
      if rc == TM_SUCCESS {
        if event == TM_NULL_EVENT {
        } else if event == TM_ERROR_EVENT {
        } else {
          nb := nb + 1;
        }
      }
      ObitKeeps(c);
    }

    /** A number in slot c for the end of its task, registered or not, leaves the task ids as they were. */
    twostate lemma {:induction false} ObitKeeps(c: nat)
      requires old(Valid()) && c < tid.Length && old(Acknowledged(c)) && old(eventsObit[c] !in tm.info) && tm.Valid()
      requires tm.next >= old(tm.next) && eventsObit[c] < tm.next
      requires eventsObit[..] == old(eventsObit[..])[c := eventsObit[c]]
      requires tid[..] == old(tid[..]) && eventsSpawn[..] == old(eventsSpawn[..]) && tm.tasks == old(tm.tasks)
      requires eventsObit[c] !in old(tm.info)
      requires
        || (tm.info == old(tm.info) && tm.pending == old(tm.pending))
        || (eventsObit[c] == old(tm.next) && tm.info == old(tm.info)[eventsObit[c] := Ending(c)] &&
            tm.pending == old(tm.pending) + {eventsObit[c]})
      ensures Valid()
    {
      forall d | 0 <= d < tid.Length
        ensures eventsSpawn[d] == old(eventsSpawn[d]) && tid[d] == old(tid[d])
        ensures d != c ==> eventsObit[d] == old(eventsObit[d])
      {
        assert eventsSpawn[d] == eventsSpawn[..][d] && old(eventsSpawn[d]) == old(eventsSpawn[..])[d];
        assert tid[d] == tid[..][d] && old(tid[d]) == old(tid[..])[d];
        assert eventsObit[d] == eventsObit[..][d] && old(eventsObit[d]) == old(eventsObit[..])[d];
      }
      assert forall d :: 0 <= d < tid.Length ==> TaskOf(d) == old(TaskOf(d));
    }

    /** Slot c has an event now, and it is counted, or none. */
    ghost predicate Watched(c: nat, info: map<int, Info>, pending: set<int>, nobits: int, nb: int)
      requires c < eventsObit.Length
      reads tm`info, tm`pending, eventsObit
    {
      var e := eventsObit[c];
      if e in tm.info
      then e !in info && tm.info == info[e := Ending(c)] && tm.pending == pending + {e} && nb == nobits + 1
      else tm.info == info && tm.pending == pending && nb == nobits
    }

    /** The first branch of the scan: the spawn of slot c was answered. */
    method SpawnReturned(c: nat, errno: int, nobits: int) returns (nb: int)
      requires Valid() && c < tid.Length && Acknowledged(c) && eventsObit[c] !in tm.info
      modifies this`nspawned, tm`next, tm`info, tm`pending, tm`asked, eventsObit
      ensures Valid() && nspawned == old(nspawned) - 1
      ensures tm.asked == old(tm.asked) + if errno == 0 && !noObit then {c} else {}
      ensures Watched(c, old(tm.info), old(tm.pending), nobits, nb)
      ensures eventsObit[..] == old(eventsObit[..])[c := eventsObit[c]] && Kept(old(Now()), Now(), c, c + 1)
    {
      nspawned := nspawned - 1;
      nb := nobits;
      if errno != 0 {
        return;
      }
      if noObit {
        return;
      }
      nb := Watch(c, nb);
    }

    /** The event has just been delivered, and only the counters, and for an end the task id, do not show it yet. */
    ghost predicate Returned(lo: nat, hi: nat, event: int, errno: int)
      requires hi <= eventsSpawn.Length
      reads tm`next, tm`info, tm`pending, tm`tasks, tm`asked, tid, eventsSpawn, eventsObit
    {
      && Shape() && OwnObits(lo, hi)
      && event in tm.info && event !in tm.pending
      && (tm.info[event].Ending? ==> lo <= tm.info[event].c < hi)
      && (forall c :: 0 <= c < tid.Length && tm.info[event] != Ending(c) ==> tid[c] == TaskOf(c))
      && (forall c :: lo <= c < hi && tm.info[event] != Spawning(c) ==>
            (c in tm.asked <==> !noObit && eventsSpawn[c] in tm.tasks))
      && (tm.info[event].Spawning? ==>
            var k := tm.info[event].c;
            eventsObit[k] !in tm.info && (lo <= k < hi ==> k !in tm.asked) && (event in tm.tasks <==> errno == 0))
    }

    /** The counters are the numbers of events in p, those of spawns outside the window being foreign. */
    ghost predicate Counted(lo: nat, hi: nat, p: set<int>, foreign: nat, nobits: int)
      requires hi <= eventsSpawn.Length && hi <= eventsObit.Length
      reads `nspawned, eventsSpawn, eventsObit
    {
      nspawned == |SlotsIn(eventsSpawn[..], lo, hi, p)| + foreign && nobits == |SlotsIn(eventsObit[..], lo, hi, p)|
    }

    /** Each poll lowers this, although a spawn that is answered may add the end of its task. */
    ghost function Measure(lo: nat, hi: nat, p: set<int>): nat
      requires hi <= eventsSpawn.Length
      reads eventsSpawn
    {
      |p| + |SlotsIn(eventsSpawn[..], lo, hi, p)|
    }

    /** The polled event is still to be accounted for. */
    ghost predicate Ahead(lo: nat, hi: nat, event: int, errno: int, foreign: nat, nobits: int)
      requires hi <= eventsSpawn.Length
      reads `nspawned, tm`next, tm`info, tm`pending, tm`tasks, tm`asked, tid, eventsSpawn, eventsObit
    {
      Returned(lo, hi, event, errno) && Counted(lo, hi, tm.pending + {event}, foreign, nobits)
    }

    /** All counts are right. */
    ghost predicate Settled(lo: nat, hi: nat, foreign: nat, nobits: int)
      requires hi <= eventsSpawn.Length
      reads `nspawned, tm`next, tm`info, tm`pending, tm`tasks, tm`asked, tid, eventsSpawn, eventsObit
    {
      Valid() && Asked(lo, hi) && OwnObits(lo, hi) && Counted(lo, hi, tm.pending, foreign, nobits)
    }

    lemma {:induction false} SpawnLeaves(lo: nat, hi: nat, c: nat, event: int, errno: int)
      requires lo <= c < hi <= eventsSpawn.Length && Returned(lo, hi, event, errno) && event == eventsSpawn[c]
      ensures |SlotsIn(eventsSpawn[..], lo, hi, tm.pending + {event})| ==
              |SlotsIn(eventsSpawn[..], lo, hi, tm.pending)| + 1
      ensures SlotsIn(eventsObit[..], lo, hi, tm.pending + {event}) == SlotsIn(eventsObit[..], lo, hi, tm.pending)
    {
      SlotLeaves(eventsSpawn[..], lo, hi, tm.pending, event, c);
      NoSlotLeaves(eventsObit[..], lo, hi, tm.pending, event);
    }

    lemma {:induction false} EndComes(lo: nat, hi: nat, c: nat, os: seq<int>, info: map<int, Info>, p: set<int>,
                                      was: int, now: int)
      requires Numbers() && lo <= c < hi <= eventsSpawn.Length && Watched(c, info, p, was, now) && p <= info.Keys
      requires |os| == eventsObit.Length && os[c] !in p && eventsObit[..] == os[c := eventsObit[c]]
      ensures SlotsIn(eventsSpawn[..], lo, hi, tm.pending) == SlotsIn(eventsSpawn[..], lo, hi, p)
      ensures |SlotsIn(eventsObit[..], lo, hi, tm.pending)| - |SlotsIn(os, lo, hi, p)| == now - was
    {
      var e := eventsObit[c];
      SlotIdle(os, eventsObit[..], lo, hi, p, c);
      if e in tm.info {
        NoSlotLeaves(eventsSpawn[..], lo, hi, p, e);
        SlotLeaves(eventsObit[..], lo, hi, p, e, c);
      }
    }

    ghost function Now(): Snapshot
      reads tm`asked, tm`info, tm`pending, tm`tasks, eventsObit
    {
      Snapshot(eventsObit[..], tm.asked, tm.info, tm.pending, tm.tasks)
    }

    /** What is known in front of the answer to the spawn of slot c. */
    lemma {:induction false} SpawnAhead(lo: nat, hi: nat, c: nat, event: int, errno: int, foreign: nat, nobits: int)
      requires lo <= c < hi <= eventsSpawn.Length && Ahead(lo, hi, event, errno, foreign, nobits)
      requires event == eventsSpawn[c]
      ensures Valid() && Acknowledged(c) && eventsObit[c] !in tm.info && tid.Length == eventsSpawn.Length
      ensures event in tm.info && event !in tm.pending && tm.pending <= tm.info.Keys
      ensures OwnObits(lo, hi) && c !in tm.asked && (event in tm.tasks <==> errno == 0)
      ensures forall d :: lo <= d < hi && d != c ==> (d in tm.asked <==> !noObit && eventsSpawn[d] in tm.tasks)
      ensures Counted(lo, hi, tm.pending, foreign + 1, nobits)
      ensures Measure(lo, hi, tm.pending + {event}) == Measure(lo, hi, tm.pending) + 2
    {
      SpawnLeaves(lo, hi, c, event, errno);
      hide SlotsIn;
    }

    /** What is known behind it, with the state in front of it. */
    lemma {:induction false} SpawnSettled(lo: nat, hi: nat, c: nat, event: int, errno: int, a: Snapshot, was: int,
                                          nb: int, foreign: nat)
      requires Valid() && lo <= c < hi <= eventsSpawn.Length == eventsObit.Length && event == eventsSpawn[c]
      requires Watched(c, a.info, a.pending, was, nb)
      requires |a.obits| == eventsObit.Length && eventsObit[..] == a.obits[c := eventsObit[c]]
      requires a.pending <= a.info.Keys && a.obits[c] !in a.info && event in a.info && tm.tasks == a.tasks
      requires forall e :: e in a.pending && a.info[e].Ending? ==> lo <= a.info[e].c < hi
      requires tm.asked == a.asked + if errno == 0 && !noObit then {c} else {}
      requires c !in a.asked && (event in a.tasks <==> errno == 0)
      requires forall d :: lo <= d < hi && d != c ==> (d in a.asked <==> !noObit && eventsSpawn[d] in a.tasks)
      requires nspawned == |SlotsIn(eventsSpawn[..], lo, hi, a.pending)| + foreign
      requires was == |SlotsIn(a.obits, lo, hi, a.pending)|
      ensures Settled(lo, hi, foreign, nb) && tm.info[event] == a.info[event]
      ensures Measure(lo, hi, tm.pending) < |a.pending| + |SlotsIn(eventsSpawn[..], lo, hi, a.pending)| + 2
    {
      EndComes(lo, hi, c, a.obits, a.info, a.pending, was, nb);
      hide SlotsIn, Numbers, TaskOf, Acknowledged;
    }

    method SpawnCounted(lo: nat, hi: nat, c: nat, event: int, errno: int, nobits: int, ghost foreign: nat)
      returns (nb: int)
      requires lo <= c < hi <= eventsSpawn.Length && Ahead(lo, hi, event, errno, foreign, nobits)
      requires event == eventsSpawn[c]
      modifies this`nspawned, tm`next, tm`info, tm`pending, tm`asked, eventsObit
      ensures Settled(lo, hi, foreign, nb)
      ensures Numbers() && event in tm.info && tm.info[event] == old(tm.info[event])
      ensures Kept(old(Now()), Now(), lo, hi)
      ensures Measure(lo, hi, tm.pending) < old(Measure(lo, hi, tm.pending + {event}))
    {
      SpawnAhead(lo, hi, c, event, errno, foreign, nobits);
      ghost var a := Now();
      assert eventsSpawn != eventsObit && eventsSpawn.Length == eventsObit.Length;
      hide SlotsIn, Kept, Numbers, TaskOf, Acknowledged, Watched;
      nb := SpawnReturned(c, errno, nobits);
      KeptWider(a, Now(), c, lo, hi);
      SpawnSettled(lo, hi, c, event, errno, a, nobits, nb, foreign);
    }

    method ObitCounted(lo: nat, hi: nat, c: nat, event: int, errno: int, nobits: int, ghost foreign: nat)
      returns (nb: int)
      requires lo <= c < hi <= eventsSpawn.Length && Ahead(lo, hi, event, errno, foreign, nobits)
      requires event == eventsObit[c]
      modifies tid
      ensures Settled(lo, hi, foreign, nb)
      ensures Measure(lo, hi, tm.pending) < Measure(lo, hi, tm.pending + {event})
    {
      nb := nobits - 1;
      tid[c] := TM_NULL_TASK;
      NoSlotLeaves(eventsSpawn[..], lo, hi, tm.pending, event);
      SlotLeaves(eventsObit[..], lo, hi, tm.pending, event, c);
    }

    lemma {:induction false} OneSlot(event: int, c: nat)
      requires Numbers() && event in tm.info && c < eventsSpawn.Length && event in {eventsSpawn[c], eventsObit[c]}
      ensures tm.info[event].c == c
    {
    }

    lemma {:induction false} OutsideWindow(lo: nat, hi: nat, event: int, errno: int, foreign: nat, nobits: int)
      requires lo <= hi <= eventsSpawn.Length && Ahead(lo, hi, event, errno, foreign, nobits)
      requires !(lo <= tm.info[event].c < hi)
      ensures Settled(lo, hi, foreign, nobits) && Measure(lo, hi, tm.pending) < Measure(lo, hi, tm.pending + {event})
    {
      NoSlotLeaves(eventsSpawn[..], lo, hi, tm.pending, event);
      NoSlotLeaves(eventsObit[..], lo, hi, tm.pending, event);
    }

    /** The scan of the window from lo to hi for the polled event, which belongs to at most one slot. */
    method Scan(lo: nat, hi: nat, event: int, errno: int, nobits: int, ghost foreign: nat) returns (nb: int)
      requires lo <= hi <= eventsSpawn.Length && Ahead(lo, hi, event, errno, foreign, nobits)
      modifies this`nspawned, tm`next, tm`info, tm`pending, tm`asked, tid, eventsObit
      ensures Settled(lo, hi, foreign, nb) && hi <= tid.Length
      ensures Kept(old(Now()), Now(), lo, hi)
      ensures Measure(lo, hi, tm.pending) < old(Measure(lo, hi, tm.pending + {event}))
    {
      assert Numbers() && event in tm.info && tid.Length == eventsSpawn.Length == eventsObit.Length;
      hide Ahead, Settled, Numbers, Measure;
      nb := nobits;
      ghost var k := tm.info[event].c;
      ghost var inside := lo <= k < hi;
      var c := lo;
      while c < hi
        invariant lo <= c <= hi && Numbers() && event in tm.info && tm.info[event] == old(tm.info[event])
        invariant if inside && k < c
                  then Settled(lo, hi, foreign, nb) &&
                       Measure(lo, hi, tm.pending) < old(Measure(lo, hi, tm.pending + {event}))
                  else Ahead(lo, hi, event, errno, foreign, nb) && tm.pending == old(tm.pending)
        invariant Kept(old(Now()), Now(), lo, hi)
      {
        if event == eventsSpawn[c] {
          OneSlot(event, c);
          nb := SpawnCounted(lo, hi, c, event, errno, nb, foreign);
        } else if event == eventsObit[c] {
          OneSlot(event, c);
          nb := ObitCounted(lo, hi, c, event, errno, nb, foreign);
        }
        c := c + 1;
      }
      if !inside {
        OutsideWindow(lo, hi, event, errno, foreign, nb);
      }
    }

    /** What no poll touches. */
    twostate predicate Same()
      reads this, tm, eventsSpawn, eventsObit
    {
      && tm.next == old(tm.next) && tm.info == old(tm.info) && tm.asked == old(tm.asked)
      && eventsSpawn[..] == old(eventsSpawn[..]) && eventsObit[..] == old(eventsObit[..])
    }

    twostate lemma {:induction false} SameSlots()
      requires Same()
      ensures forall c :: 0 <= c < eventsSpawn.Length ==> eventsSpawn[c] == old(eventsSpawn[c])
      ensures forall c :: 0 <= c < eventsObit.Length ==> eventsObit[c] == old(eventsObit[c])
    {
      assert forall c :: 0 <= c < eventsSpawn.Length ==>
                           eventsSpawn[c] == eventsSpawn[..][c] && old(eventsSpawn[c]) == old(eventsSpawn[..])[c];
      assert forall c :: 0 <= c < eventsObit.Length ==>
                           eventsObit[c] == eventsObit[..][c] && old(eventsObit[c]) == old(eventsObit[..])[c];
    }

    /** A poll that failed has changed nothing here. */
    twostate lemma {:induction false} StaysValid()
      requires old(Valid()) && Same() && tm.pending == old(tm.pending) && tm.tasks == old(tm.tasks)
      requires tid[..] == old(tid[..])
      ensures Valid()
    {
      SameSlots();
      assert forall c :: 0 <= c < tid.Length ==> tid[c] == tid[..][c] && old(tid[c]) == old(tid[..])[c];
    }

    /** A poll that delivered the event has left every task id as it should be, but for the one that has ended. */
    twostate lemma {:induction false} OneEvent(event: int)
      requires old(Valid()) && Same() && tm.Valid()
      requires event in old(tm.pending) && tm.pending == old(tm.pending) - {event}
      requires
        || (tm.tasks == old(tm.tasks) && tid[..] == old(tid[..]))
        || (tm.info[event].Spawning? && tm.info[event].c < tid.Length &&
            tm.tasks == old(tm.tasks)[event := tid[tm.info[event].c]] &&
            tid[..] == old(tid[..])[tm.info[event].c := tid[tm.info[event].c]])
      ensures Shape() && forall c :: 0 <= c < tid.Length && tm.info[event] != Ending(c) ==> tid[c] == TaskOf(c)
      ensures tm.info[event].Spawning? ==> eventsObit[tm.info[event].c] !in tm.info
    {
      SameSlots();
      forall c | 0 <= c < tid.Length && tm.info[event] != Ending(c)
        ensures tid[c] == TaskOf(c)
      {
        assert eventsObit[c] != event;
        assert tid[c] == tid[..][c] && old(tid[c]) == old(tid[..])[c] && old(tid[c]) == old(TaskOf(c));
        if eventsSpawn[c] == event {
          assert eventsObit[c] !in tm.info;
        }
      }
    }

    ghost function Held(): Stored
      reads tm`pending, tm`tasks, tid
    {
      Stored(tm.pending, tm.tasks, tid[..])
    }

    /** What a poll that delivered an event leaves to be accounted for. */
    twostate lemma {:induction false} Delivered(d: Delivery)
      requires d.lo <= d.hi <= eventsSpawn.Length && old(Settled(d.lo, d.hi, d.foreign, d.nobits))
      requires Same() && tm.Valid() && nspawned == old(nspawned)
      requires d.event != TM_NULL_EVENT
      requires Polled(TM_SUCCESS, d.event, d.errno, tm.info, old(Held()), Held())
      ensures Ahead(d.lo, d.hi, d.event, d.errno, d.foreign, d.nobits)
    {
      assert tm.pending + {d.event} == old(tm.pending);
      OneEvent(d.event);
      SameSlots();
      hide SlotsIn, TaskOf, Acknowledged;
    }

    /** A poll that delivered nothing. */
    twostate lemma {:induction false} NothingDelivered(d: Delivery)
      requires d.lo <= d.hi <= eventsSpawn.Length && old(Settled(d.lo, d.hi, d.foreign, d.nobits))
      requires Same() && Held() == old(Held()) && nspawned == old(nspawned)
      ensures Settled(d.lo, d.hi, d.foreign, d.nobits)
    {
      StaysValid();
      SameSlots();
      hide SlotsIn, Valid;
    }

    /** Polls once, a signal being let in meanwhile. */
    method PollOne(lo: nat, hi: nat, nobits: int, ghost foreign: nat) returns (rc: int, event: int, errno: int)
      requires Flagged()
      requires lo <= hi <= eventsSpawn.Length && Settled(lo, hi, foreign, nobits)
      modifies this`firePhasers, this`caught, tm`pending, tm`tasks, tm`polls, tm`broken, tm`ended, tid
      ensures Flagged() && old(caught) <= caught
      ensures tm.polls == old(tm.polls) + 1
      ensures old(tm.pending) == {} ==> rc != TM_SUCCESS && tm.broken == old(tm.broken)
      ensures old(tm.pending) != {} ==> tm.broken == (old(tm.broken) || rc != TM_SUCCESS)
      ensures rc != TM_SUCCESS || event == TM_NULL_EVENT ==>
                Settled(lo, hi, foreign, nobits) && tm.pending == old(tm.pending) && tm.tasks == old(tm.tasks)
      ensures if rc == TM_SUCCESS then tm.ended == (event == TM_NULL_EVENT) else tm.ended == old(tm.ended)
      ensures rc == TM_SUCCESS && event == TM_NULL_EVENT ==> tm.pending != {}
      ensures rc == TM_SUCCESS && event != TM_NULL_EVENT ==>
                Ahead(lo, hi, event, errno, foreign, nobits) && tm.pending + {event} == old(tm.pending)
      ensures Kept(old(Now()), Now(), lo, hi)
    {
      ghost var a, x := Now(), Held();
      PollReady();
      hide Settled, Ahead, Kept, Numbers, Shape, Valid, TaskManager.Valid, Polled;
      rc, event, errno := tm.Poll(tid);
      LetSignalsIn();
      KeptByPoll(rc, event, errno, a, Now(), x, Held(), lo, hi);
      if rc == TM_SUCCESS && event != TM_NULL_EVENT {
        PolledOne(rc, event, errno, tm.info, x, Held());
        Delivered(Delivery(lo, hi, event, errno, foreign, nobits));
      } else {
        PolledNothing(rc, event, errno, tm.info, x, Held());
        NothingDelivered(Delivery(lo, hi, event, errno, foreign, nobits));
      }
    }

    lemma {:induction false} PollReady()
      requires Shape()
      ensures tm.Valid() && tm.pending <= tm.info.Keys && tid.Length == eventsSpawn.Length == eventsObit.Length
      ensures tid != eventsSpawn && tid != eventsObit
      ensures forall e :: e in tm.info && tm.info[e].Spawning? ==> tm.info[e].c < tid.Length
    {
    }

    /** One poll, and the scan for what it delivered. Gone means that the connection has ended. */
    method Round(lo: nat, hi: nat, nobits: int, ghost foreign: nat) returns (rc: int, gone: bool, nb: int)
      requires Flagged()
      requires lo <= hi <= eventsSpawn.Length && Settled(lo, hi, foreign, nobits)
      modifies this`nspawned, this`firePhasers, this`caught, tid, eventsObit
      modifies tm`next, tm`info, tm`asked, tm`pending, tm`tasks, tm`polls, tm`broken, tm`ended
      ensures Flagged() && old(caught) <= caught
      ensures Settled(lo, hi, foreign, nb) && Kept(old(Now()), Now(), lo, hi) && tm.polls == old(tm.polls) + 1
      ensures rc == TM_SUCCESS && !gone ==>
                Measure(lo, hi, tm.pending) < old(Measure(lo, hi, tm.pending)) && tm.broken == old(tm.broken)
      ensures rc != TM_SUCCESS || gone ==>
                nspawned == old(nspawned) && nb == nobits &&
                Measure(lo, hi, tm.pending) == old(Measure(lo, hi, tm.pending))
      ensures rc != TM_SUCCESS ==> tm.broken == (old(tm.broken) || tm.pending != {}) && tm.ended == old(tm.ended)
      ensures rc == TM_SUCCESS ==> tm.ended == gone && (gone ==> tm.pending != {} && tm.broken == old(tm.broken))
    {
      assert tid != eventsSpawn && tid != eventsObit && eventsSpawn != eventsObit;
      hide Settled, Ahead, Measure, Kept, Now;
      ghost var a := Now();
      var event, errno;
      rc, event, errno := PollOne(lo, hi, nobits, foreign);
      nb, gone := nobits, event == TM_NULL_EVENT;
      if rc == TM_SUCCESS && !gone {
        ghost var b := Now();
        nb := Scan(lo, hi, event, errno, nb, foreign);
        KeptTwice(a, b, Now(), lo, hi);
      }
    }

    /** Sends the signal to the tasks of the window that are still there. */
    method KillAll(first: nat, hi: nat)
      requires first <= hi <= tid.Length
      modifies tm`killed
      ensures tm.killed == old(tm.killed) + Kills(tid[first..hi], firePhasers)
    {
      hide Kills;
      var c := first;
      assert tid[first..c] == [];
      KillsNone(firePhasers);
      while c < hi
        invariant first <= c <= hi && tm.killed == old(tm.killed) + Kills(tid[first..c], firePhasers)
      {
        KillsStep(tid[first..c], tid[c], firePhasers);
        assert tid[first..c + 1] == tid[first..c] + [tid[c]];
        if tid[c] != TM_NULL_TASK {
          tm.Kill(tid[c], firePhasers);
        }
        c := c + 1;
      }
    }

    /** The spawns that the caller counted, but that are outside its window. */
    ghost function Foreign(first: nat): int
      requires nspawned >= 0 && first + nspawned <= eventsSpawn.Length
      reads `nspawned, tm`pending, eventsSpawn
    {
      nspawned - |SlotsIn(eventsSpawn[..], first, first + nspawned, tm.pending)|
    }

    /** Nothing from lo to hi is outstanding. */
    ghost predicate Over(lo: nat, hi: nat)
      requires hi <= eventsSpawn.Length && hi <= eventsObit.Length
      reads tm`pending, eventsSpawn, eventsObit
    {
      forall c :: lo <= c < hi ==> eventsSpawn[c] !in tm.pending && eventsObit[c] !in tm.pending
    }

    /** Only spawns are outstanding, and as many slots as are counted are there. */
    ghost predicate Waitable(first: nat)
      reads `nspawned, tm`next, tm`info, tm`pending, tm`tasks, tm`asked, tid, eventsSpawn, eventsObit
    {
      && Valid() && nspawned >= 0 && first + nspawned <= tid.Length && Asked(first, first + nspawned)
      && forall e :: e in tm.pending ==> tm.info[e].Spawning?
    }

    lemma {:induction false} Begins(first: nat)
      requires Waitable(first)
      ensures 0 <= nspawned <= first + nspawned <= tid.Length == eventsSpawn.Length == eventsObit.Length
      ensures Foreign(first) >= 0 && Settled(first, first + nspawned, Foreign(first), 0)
    {
      assert SlotsIn(eventsObit[..], first, first + nspawned, tm.pending) == {};
      SlotsBounded(eventsSpawn[..], first, first + nspawned, tm.pending);
    }

    lemma {:induction false} Ends(lo: nat, hi: nat, foreign: nat, nobits: int)
      requires lo <= hi <= eventsSpawn.Length && Settled(lo, hi, foreign, nobits)
      ensures nspawned == 0 && nobits == 0 ==> foreign == 0 && Over(lo, hi)
      ensures tm.pending == {} && !(nspawned == 0 && nobits == 0) ==> foreign > 0
      ensures Valid() && Asked(lo, hi) && OwnObits(lo, hi)
    {
      var spawns, obits := SlotsIn(eventsSpawn[..], lo, hi, tm.pending), SlotsIn(eventsObit[..], lo, hi, tm.pending);
      assert forall c :: lo <= c < hi ==> (c in spawns <==> eventsSpawn[c] in tm.pending);
      assert forall c :: lo <= c < hi ==> (c in obits <==> eventsObit[c] in tm.pending);
      assert tm.pending == {} ==> spawns == {} && obits == {};
    }

    /** The body of the loop of wait_for_task: go tells that it goes on. */
    method Turn(first: nat, hi: nat, nobits: int, ghost foreign: nat) returns (go: bool, status: nat, nb: int)
      requires Flagged()
      requires first <= hi <= tid.Length == eventsSpawn.Length && Settled(first, hi, foreign, nobits) && !tm.ended
      modifies this`nspawned, this`firePhasers, this`caught, tid, eventsObit
      modifies tm`next, tm`info, tm`asked, tm`pending, tm`tasks, tm`polls, tm`broken, tm`ended, tm`killed
      ensures Flagged() && old(caught) <= caught
      ensures Settled(first, hi, foreign, nb) && Kept(old(Now()), Now(), first, hi)
      ensures old(firePhasers) != 0 ==> !go && status == 1
      ensures go ==>
                tm.polls == old(tm.polls) + 1 && Measure(first, hi, tm.pending) < old(Measure(first, hi, tm.pending)) &&
                tm.killed == old(tm.killed) && tm.broken == old(tm.broken) && !tm.ended
      ensures !go ==>
                nspawned == old(nspawned) && nb == nobits &&
                tm.polls == old(tm.polls) + (if status == 1 then 0 else 1) &&
                Measure(first, hi, tm.pending) == old(Measure(first, hi, tm.pending))
      ensures !go && status == 1 ==>
                firePhasers != 0 && tm.killed == old(tm.killed) + Kills(tid[first..hi], firePhasers)
      ensures !go && status == 2 ==> tm.broken || tm.pending == {}
      ensures !go && status == 3 ==> tm.pending != {}
      ensures !go ==> status in {1, 2, 3} && (old(tm.broken) ==> tm.broken) && (tm.ended <==> status == 3)
    {
      assert tm.Valid() && eventsObit.Length == tid.Length && tid != eventsSpawn && eventsSpawn != eventsObit;
      hide Settled, Measure, Kills, Kept;
      if firePhasers != 0 {
        KeptSame(Now(), first, hi);
        KillAll(first, hi);
        return false, 1, nobits;
      }
      var rc, gone;
      rc, gone, nb := Round(first, hi, nobits, foreign);
      go := rc == TM_SUCCESS && !gone;
      status := if rc != TM_SUCCESS then 2 else 3;
    }

    /** The loop of wait_for_task up to the end of the connection, which is status 3. Otherwise the status is the one
        that the process exits with, 0 when it goes on. */
    method WaitLoop(first: nat, hi: nat, ghost foreign: nat) returns (status: nat, nobits: int)
      requires Flagged()
      requires first <= hi <= tid.Length == eventsSpawn.Length && Settled(first, hi, foreign, 0) && !tm.ended
      modifies this`nspawned, this`firePhasers, this`caught, tid, eventsObit
      modifies tm`next, tm`info, tm`asked, tm`pending, tm`tasks, tm`polls, tm`broken, tm`ended, tm`killed
      ensures Flagged() && old(caught) <= caught
      ensures old(firePhasers != 0 && nspawned != 0) ==> status == 1 && tm.polls == old(tm.polls)
      ensures Settled(first, hi, foreign, nobits) && Kept(old(Now()), Now(), first, hi)
      ensures tm.polls + Measure(first, hi, tm.pending) <=
              old(tm.polls + Measure(first, hi, tm.pending)) + if status >= 2 then 1 else 0
      ensures status == 0 ==> nspawned == 0 && nobits == 0
      ensures status == 1 ==> firePhasers != 0 && tm.killed == old(tm.killed) + Kills(tid[first..hi], firePhasers)
      ensures status == 2 ==> tm.broken || (tm.pending == {} && !(nspawned == 0 && nobits == 0))
      ensures status == 3 ==> tm.pending != {} && !(nspawned == 0 && nobits == 0)
      ensures status in {0, 1, 2, 3} && (old(tm.broken) ==> tm.broken) && (tm.ended <==> status == 3)
    {
      assert tm.Valid() && tid != eventsSpawn && eventsSpawn != eventsObit;
      nobits := 0;
      KeptSame(Now(), first, hi);
      ghost var flag, polls := firePhasers, tm.polls;
      hide Settled, Measure, Kills, Kept, Now, TaskManager.Valid, Flagged;
      while nspawned != 0 || nobits != 0
        invariant Flagged() && old(caught) <= caught
        invariant flag != 0 ==> firePhasers == flag && tm.polls == polls && nspawned == old(nspawned)
        invariant Settled(first, hi, foreign, nobits) && Kept(old(Now()), Now(), first, hi)
        invariant tm.polls + Measure(first, hi, tm.pending) <= old(tm.polls + Measure(first, hi, tm.pending))
        invariant tm.killed == old(tm.killed) && tm.broken == old(tm.broken) && !tm.ended
        decreases Measure(first, hi, tm.pending)
      {
        ghost var before := Now();
        var go;
        go, status, nobits := Turn(first, hi, nobits, foreign);
        KeptTwice(old(Now()), before, Now(), first, hi);
        if !go {
          return;
        }
      }
      status := 0;
    }

    /** The slots from lo to hi that have no number for the end of their task. */
    ghost function Unended(lo: nat, hi: nat): set<nat>
      requires hi <= eventsObit.Length
      reads eventsObit
    {
      SlotsIn(eventsObit[..], lo, hi, {TM_NULL_EVENT})
    }

    /** The spawn of each slot from lo to hi has a number. */
    ghost predicate Numbered(lo: nat, hi: nat)
      requires hi <= eventsSpawn.Length
      reads eventsSpawn
    {
      forall c :: lo <= c < hi ==> eventsSpawn[c] != TM_NULL_EVENT
    }

    /** The scan of the window for the null event. */
    method ScanNull(lo: nat, hi: nat, nobits: int) returns (nb: int)
      requires lo <= hi <= eventsSpawn.Length == eventsObit.Length == tid.Length
      requires tid != eventsSpawn && tid != eventsObit && Numbered(lo, hi)
      modifies tid
      ensures nb == nobits - |Unended(lo, hi)|
      ensures Nulled(old(tid[..]), tid[..], Unended(lo, hi))
    {
      nb := nobits;
      var c := lo;
      assert Unended(lo, lo) == {};
      while c < hi
        invariant lo <= c <= hi && nb == nobits - |Unended(lo, c)|
        invariant Nulled(old(tid[..]), tid[..], Unended(lo, c))
      {
        SlotsNext(eventsObit[..], lo, c, {TM_NULL_EVENT});
        if TM_NULL_EVENT == eventsObit[c] {
          nb := nb - 1;
          tid[c] := TM_NULL_TASK;
        }
        c := c + 1;
      }
    }

    /** One null answer, a signal being let in meanwhile, and the scan for it. */
    method RoundNull(lo: nat, hi: nat, nobits: int) returns (nb: int)
      requires Flagged()
      requires Shape() && lo <= hi <= tid.Length && Numbered(lo, hi) && tm.ended && tm.pending != {}
      modifies this`firePhasers, this`caught, tm`pending, tm`tasks, tm`polls, tm`broken, tm`ended, tid
      ensures Flagged() && old(caught) <= caught
      ensures Shape() && nb == nobits - |Unended(lo, hi)| && tm.ended && tm.polls == old(tm.polls) + 1
      ensures tm.pending == old(tm.pending)
      ensures Nulled(old(tid[..]), tid[..], Unended(lo, hi))
    {
      PollReady();
      var rc, event, errno := tm.Poll(tid);
      LetSignalsIn();
      hide Unended, Nulled;
      nb := ScanNull(lo, hi, nobits);
    }

    /** wait_for_task once the connection has ended, for at most so many further answers. */
    method WaitOn(lo: nat, hi: nat, nobits: int, most: nat) returns (status: nat, answers: nat, nb: int)
      requires Flagged()
      requires Shape() && lo <= hi <= tid.Length && Numbered(lo, hi) && tm.ended && tm.pending != {}
      modifies this`firePhasers, this`caught, tid, tm`pending, tm`tasks, tm`polls, tm`broken, tm`ended, tm`killed
      ensures Flagged() && old(caught) <= caught
      ensures nb == After(nobits, |Unended(lo, hi)|, answers) && nspawned == old(nspawned)
      ensures Nulled(old(tid[..]), tid[..], ClearedBy(answers, Unended(lo, hi)))
      ensures tm.pending == old(tm.pending) && tm.polls == old(tm.polls) + answers && tm.ended
      ensures status == 0 ==> nspawned == 0 && nb == 0
      ensures status == 1 ==> firePhasers != 0 && tm.killed == old(tm.killed) + Kills(tid[lo..hi], firePhasers)
      ensures status == 3 ==> answers == most && (nspawned != 0 || nb != 0)
      ensures Waiting(nspawned, nobits, |Unended(lo, hi)|, answers)
      ensures status in {0, 1, 3}
    {
      answers, nb := 0, nobits;
      ghost var z := Unended(lo, hi);
      assert tid.Length == eventsSpawn.Length == eventsObit.Length && tid != eventsObit && tid != eventsSpawn;
      AfterSteps(nobits, |z|, 0);
      assert Waiting(nspawned, nobits, |z|, 0);
      NulledNone(tid[..], z);
      hide *;
      while (nspawned != 0 || nb != 0) && answers < most
        invariant Flagged() && old(caught) <= caught
        invariant Shape() && Numbered(lo, hi) && answers <= most && nb == After(nobits, |z|, answers)
        invariant Unended(lo, hi) == z
        invariant tm.pending == old(tm.pending) && tm.polls == old(tm.polls) + answers && tm.ended
        invariant tm.killed == old(tm.killed)
        invariant Waiting(nspawned, nobits, |z|, answers)
        invariant Nulled(old(tid[..]), tid[..], ClearedBy(answers, z))
      {
        if firePhasers != 0 {
          KillAll(lo, hi);
          status := 1;
          return;
        }
        ghost var before := tid[..];
        nb := RoundNull(lo, hi, nb);
        NulledAgain(old(tid[..]), before, tid[..], answers, z);
        WaitingNext(nspawned, nobits, |z|, answers);
        AfterSteps(nobits, |z|, answers);
        answers := answers + 1;
      }
      status := if nspawned != 0 || nb != 0 then 3 else 0;
    }

    /** Any such answer leaves the counts wrong iff there is a slot without a number. */
    lemma {:induction false} NullAnswersMiscount(lo: nat, hi: nat, foreign: nat, nobits: int, k: nat)
      requires lo <= hi <= eventsSpawn.Length == eventsObit.Length && k > 0
      requires Counted(lo, hi, tm.pending, foreign, nobits)
      ensures Counted(lo, hi, tm.pending, foreign, After(nobits, |Unended(lo, hi)|, k)) <==> Unended(lo, hi) == {}
    {
      var z := |Unended(lo, hi)|;
      assert z > 0 ==> k * z > 0;
    }

    /** When the connection ends during a wait, the wait comes to its end iff no spawn is counted and the slots without
        a number for the end of their task divide the count of the others. */
    lemma {:induction false} LeftWaitEnds(lo: nat, hi: nat, foreign: nat, nobits: int)
      requires lo <= hi <= eventsSpawn.Length && Settled(lo, hi, foreign, nobits) && (nspawned != 0 || nobits != 0)
      ensures (exists k: nat :: nspawned == 0 && After(nobits, |Unended(lo, hi)|, k) == 0) <==>
              nspawned == 0 && Unended(lo, hi) != {} && nobits % |Unended(lo, hi)| == 0
    {
      NullAnswersEnd(nobits, |Unended(lo, hi)|);
      assert |Unended(lo, hi)| == 0 ==> Unended(lo, hi) == {};
    }

    /** wait_for_task. */
    method WaitForTask(first: nat) returns (status: nat)
      requires Flagged()
      requires Waitable(first) && !tm.ended
      modifies this`nspawned, this`firePhasers, this`caught, tid, eventsObit
      modifies tm`next, tm`info, tm`asked, tm`pending, tm`tasks, tm`polls, tm`broken, tm`ended, tm`killed
      ensures Flagged() && old(caught) <= caught
      ensures old(firePhasers != 0 && nspawned != 0) ==> status == 1 && tm.polls == old(tm.polls)
      ensures Valid() && old(Foreign(first)) >= 0
      ensures Asked(first, first + old(nspawned)) && OwnObits(first, first + old(nspawned))
      ensures Kept(old(Now()), Now(), first, first + old(nspawned))
      ensures tm.polls <=
              old(tm.polls) + old(Measure(first, first + nspawned, tm.pending)) + if status >= 2 then 1 else 0
      ensures status == 0 ==> old(Foreign(first)) == 0 && nspawned == 0 && Over(first, first + old(nspawned))
      ensures status == 1 ==>
                firePhasers != 0 && tm.killed == old(tm.killed) + Kills(tid[first..first + old(nspawned)], firePhasers)
      ensures status == 2 ==> tm.broken || old(Foreign(first)) > 0
      ensures status in {0, 1, 2, 3} && (old(tm.broken) ==> tm.broken) && (tm.ended <==> status == 3)
    {
      hide *;
      Begins(first);
      var hi := first + nspawned;
      ghost var foreign := Foreign(first);
      var nobits;
      status, nobits := WaitLoop(first, hi, foreign);
      Ends(first, hi, foreign, nobits);
    }

    /** The first c spawns have gone as ok says. */
    ghost predicate Spawned(c: nat, ok: seq<bool>)
      reads tm`next, tm`info, tm`pending, tm`tasks, tm`asked, tid, eventsSpawn, eventsObit
    {
      && Valid() && |ok| == c <= tid.Length
      && (forall i :: 0 <= i < c ==> (ok[i] <==> eventsSpawn[i] in tm.info))
      && (forall i :: c <= i < tid.Length ==> eventsSpawn[i] !in tm.info && i !in tm.asked)
    }

    /** Nothing has been polled for yet. */
    ghost predicate Unpolled(ok: seq<bool>)
      reads `nspawned, tm`info, tm`pending, tm`asked
    {
      && tm.pending == tm.info.Keys && tm.asked == {} && (forall e :: e in tm.info ==> tm.info[e].Spawning?)
      && nspawned == Count(ok)
    }

    /** The end of every task that was started has been dealt with. */
    ghost predicate AllDone(ok: seq<bool>)
      reads `nspawned, tm`pending, tm`tasks, tm`asked, eventsSpawn
    {
      && tm.pending == {} && nspawned == 0 && |ok| <= eventsSpawn.Length
      && (forall i :: 0 <= i < |ok| ==> (i in tm.asked <==> !noObit && eventsSpawn[i] in tm.tasks))
    }

    /** A spawn into slot c, which succeeded or not, leaves the task ids as they were. */
    twostate lemma {:induction false} SpawnKeeps(c: nat)
      requires old(Valid()) && c < tid.Length && old(eventsSpawn[c] !in tm.info) && tm.Valid()
      requires tm.next >= old(tm.next) && eventsSpawn[c] < tm.next
      requires eventsSpawn[..] == old(eventsSpawn[..])[c := eventsSpawn[c]]
      requires tid[..] == old(tid[..]) && eventsObit[..] == old(eventsObit[..]) && tm.tasks == old(tm.tasks)
      requires eventsSpawn[c] !in old(tm.info)
      requires
        || (tm.info == old(tm.info) && tm.pending == old(tm.pending))
        || (eventsSpawn[c] == old(tm.next) && tm.info == old(tm.info)[eventsSpawn[c] := Spawning(c)] &&
            tm.pending == old(tm.pending) + {eventsSpawn[c]})
      ensures Valid()
    {
      forall d | 0 <= d < tid.Length
        ensures eventsObit[d] == old(eventsObit[d]) && tid[d] == old(tid[d])
        ensures d != c ==> eventsSpawn[d] == old(eventsSpawn[d])
      {
        assert eventsObit[d] == eventsObit[..][d] && old(eventsObit[d]) == old(eventsObit[..])[d];
        assert tid[d] == tid[..][d] && old(tid[d]) == old(tid[..])[d];
        assert eventsSpawn[d] == eventsSpawn[..][d] && old(eventsSpawn[d]) == old(eventsSpawn[..])[d];
      }
      assert forall d :: 0 <= d < tid.Length ==> TaskOf(d) == old(TaskOf(d));
    }

    /** Asks for a spawn into slot c. */
    method SpawnInto(c: nat, node: nat) returns (done: bool)
      requires Valid() && c < tid.Length && eventsSpawn[c] !in tm.info
      modifies this`nspawned, tm`next, tm`info, tm`pending, tm`launches, eventsSpawn
      ensures Launched(old(tm.launches), tm.launches, c, node, done)
      ensures Valid() && nspawned == old(nspawned) + if done then 1 else 0
      ensures if done
              then tm.info == old(tm.info)[eventsSpawn[c] := Spawning(c)] &&
                   tm.pending == old(tm.pending) + {eventsSpawn[c]}
              else tm.info == old(tm.info) && tm.pending == old(tm.pending)
      ensures eventsSpawn[c] !in old(tm.info) && eventsSpawn[c] !in tm.tasks
      ensures eventsSpawn[..] == old(eventsSpawn[..])[c := eventsSpawn[c]]
    {
      var rc, event := tm.Spawn(c, node, eventsSpawn[c]);
      eventsSpawn[c] := event;
      done := rc == TM_SUCCESS;
      if done {
        nspawned := nspawned + 1;
      }
      SpawnKeeps(c);
    }

    /** Spawns copy number c. */
    method SpawnCopy(c: nat, node: nat, ghost ok: seq<bool>) returns (done: bool)
      requires Spawned(c, ok) && c < tid.Length
      modifies this`nspawned, tm`next, tm`info, tm`pending, tm`launches, eventsSpawn
      ensures Launched(old(tm.launches), tm.launches, c, node, done)
      ensures Spawned(c + 1, ok + [done]) && nspawned == old(nspawned) + if done then 1 else 0
      ensures if done
              then tm.info == old(tm.info)[eventsSpawn[c] := Spawning(c)] &&
                   tm.pending == old(tm.pending) + {eventsSpawn[c]}
              else tm.info == old(tm.info) && tm.pending == old(tm.pending)
      ensures eventsSpawn[c] !in tm.tasks
      ensures eventsSpawn[..] == old(eventsSpawn[..])[c := eventsSpawn[c]]
    {
      ghost var before, info := eventsSpawn[..], tm.info;
      assert tid.Length == eventsSpawn.Length;
      hide TaskOf, Acknowledged;
      done := SpawnInto(c, node);
      forall i | 0 <= i < tid.Length && i != c
        ensures eventsSpawn[i] in tm.info <==> before[i] in info
      {
        assert eventsSpawn[..][i] == before[i];
      }
    }

    /** In state a only spawns from lo to hi are outstanding, and the other copies that were spawned are dealt with. */
    ghost predicate Ready(a: Snapshot, ok: seq<bool>, lo: nat, hi: nat)
      reads eventsSpawn
    {
      && lo <= hi <= |ok| <= eventsSpawn.Length
      && (forall e :: e in a.pending ==> e in a.info && a.info[e].Spawning? && lo <= a.info[e].c < hi)
      && (forall i :: 0 <= i < |ok| ==> (ok[i] <==> eventsSpawn[i] in a.info))
      && (forall i :: |ok| <= i < eventsSpawn.Length ==> eventsSpawn[i] !in a.info && i !in a.asked)
      && (forall i :: 0 <= i < |ok| && !(lo <= i < hi) ==> (i in a.asked <==> !noObit && eventsSpawn[i] in a.tasks))
    }

    lemma {:induction false} PendingIn(a: Snapshot, ok: seq<bool>, lo: nat, hi: nat)
      requires Valid() && Ready(a, ok, lo, hi) && OwnObits(lo, hi) && Kept(a, Now(), lo, hi)
      ensures forall e :: e in tm.pending ==>
                lo <= tm.info[e].c < hi && (e == eventsSpawn[tm.info[e].c] || e == eventsObit[tm.info[e].c])
    {
    }

    /** A wait for the window that ends completes the picture. */
    lemma {:induction false} Completes(a: Snapshot, ok: seq<bool>, lo: nat, hi: nat)
      requires Valid() && Ready(a, ok, lo, hi) && nspawned == 0
      requires Asked(lo, hi) && OwnObits(lo, hi) && Over(lo, hi) && Kept(a, Now(), lo, hi)
      ensures Spawned(|ok|, ok) && AllDone(ok)
    {
      PendingIn(a, ok, lo, hi);
      assert (forall e :: e !in tm.pending) ==> tm.pending == {};
    }

    /** wait_for_task behind spawns that have gone as ok says. */
    method WaitForCopies(first: nat, ghost ok: seq<bool>) returns (status: nat)
      requires Flagged()
      requires Waitable(first) && !tm.ended
      requires Foreign(first) == 0 ==> Ready(Now(), ok, first, first + nspawned)
      modifies this`nspawned, this`firePhasers, this`caught, tid, eventsObit
      modifies tm`next, tm`info, tm`asked, tm`pending, tm`tasks, tm`polls, tm`broken, tm`ended, tm`killed
      ensures Flagged() && old(caught) <= caught
      ensures status == 0 ==> old(Foreign(first)) == 0 && Spawned(|ok|, ok) && AllDone(ok)
      ensures status == 1 ==> firePhasers != 0
      ensures status == 2 ==> tm.broken || old(Foreign(first)) > 0
      ensures status in {0, 1, 2, 3} && (tm.ended <==> status == 3)
      ensures tm.polls <=
              old(tm.polls) + old(Measure(first, first + nspawned, tm.pending)) + if status >= 2 then 1 else 0
    {
      ghost var a, n := Now(), nspawned;
      assert tid.Length == eventsSpawn.Length == eventsObit.Length;
      hide Valid, Spawned, Waitable, Ready, Asked, OwnObits, Over, Foreign, Measure, Kept, AllDone, Now, Kills;
      status := WaitForTask(first);
      if status == 0 {
        Completes(a, ok, first, first + n);
      }
    }

    /** Waits for copy c alone. */
    method WaitOne(c: nat, ghost ok: seq<bool>) returns (status: nat)
      requires Flagged()
      requires Spawned(c + 1, ok + [true]) && nspawned == 1
      requires tm.pending == {eventsSpawn[c]} && eventsSpawn[c] !in tm.tasks && !tm.ended
      requires c !in tm.asked && forall i :: 0 <= i < c ==> (i in tm.asked <==> !noObit && eventsSpawn[i] in tm.tasks)
      modifies this`nspawned, this`firePhasers, this`caught, tid, eventsObit
      modifies tm`next, tm`info, tm`asked, tm`pending, tm`tasks, tm`polls, tm`broken, tm`ended, tm`killed
      ensures Flagged() && old(caught) <= caught
      ensures status == 0 ==> Spawned(c + 1, ok + [true]) && AllDone(ok + [true])
      ensures status == 1 ==> firePhasers != 0
      ensures status == 2 ==> tm.broken
      ensures status in {0, 1, 2, 3} && (tm.ended <==> status == 3)
      ensures tm.polls <= old(tm.polls) + 2 + if status >= 2 then 1 else 0
    {
      OneReady(c, ok);
      hide Waitable, Spawned, Ready, Foreign, Measure, AllDone, Now;
      status := WaitForCopies(c, ok + [true]);
    }

    lemma {:induction false} OneReady(c: nat, ok: seq<bool>)
      requires Spawned(c + 1, ok + [true]) && nspawned == 1
      requires tm.pending == {eventsSpawn[c]} && eventsSpawn[c] !in tm.tasks
      requires c !in tm.asked && forall i :: 0 <= i < c ==> (i in tm.asked <==> !noObit && eventsSpawn[i] in tm.tasks)
      ensures Waitable(c) && Foreign(c) == 0 && Ready(Now(), ok + [true], c, c + 1)
      ensures Measure(c, c + 1, tm.pending) == 2
    {
      assert SlotsIn(eventsSpawn[..], c, c + 1, tm.pending) == {c};
    }

    /** Whether the window that starts at 0 covers all spawns. */
    lemma {:induction false} ForeignSpawns(ok: seq<bool>)
      requires Spawned(|ok|, ok) && Unpolled(ok) && tm.tasks == map[]
      ensures Waitable(0) && nspawned <= |ok| && (Foreign(0) == 0 <==> Covered(ok))
      ensures Covered(ok) ==> Ready(Now(), ok, 0, nspawned)
    {
      WindowCovers(ok);
      CountSlots(eventsSpawn[..], ok, Count(ok), tm.pending);
    }

    /** Waits for all copies together. */
    method WaitAll(ghost ok: seq<bool>) returns (status: nat)
      requires Flagged()
      requires Spawned(|ok|, ok) && Unpolled(ok) && tm.tasks == map[] && !tm.ended
      modifies this`nspawned, this`firePhasers, this`caught, tid, eventsObit
      modifies tm`next, tm`info, tm`asked, tm`pending, tm`tasks, tm`polls, tm`broken, tm`ended, tm`killed
      ensures Flagged() && old(caught) <= caught
      ensures status == 0 ==> Spawned(|ok|, ok) && AllDone(ok) && Covered(ok)
      ensures status == 1 ==> firePhasers != 0
      ensures status == 2 ==> tm.broken || !Covered(ok)
      ensures status in {0, 1, 2, 3} && (tm.ended <==> status == 3)
      ensures tm.polls <= old(tm.polls) + 2 * |ok| + if status >= 2 then 1 else 0
    {
      ForeignSpawns(ok);
      SpawnsCounted(ok);
      hide Waitable, Spawned, Unpolled, Ready, Foreign, Measure, Covered, AllDone, Now;
      status := WaitForCopies(0, ok);
    }

    /** At most two polls for each copy. */
    lemma {:induction false} SpawnsCounted(ok: seq<bool>)
      requires Spawned(|ok|, ok) && Unpolled(ok) && nspawned <= |ok|
      ensures Measure(0, nspawned, tm.pending) <= 2 * |ok|
    {
      SlotsBounded(eventsSpawn[..], 0, nspawned, tm.pending);
      SlotsBounded(eventsSpawn[..], 0, |ok|, tm.pending);
      var slots := SlotsIn(eventsSpawn[..], 0, |ok|, tm.pending);
      Injective(tm.pending, slots);
    }

    /** Each outstanding event has a slot of its own. */
    lemma {:induction false} Injective(p: set<int>, slots: set<nat>)
      requires Numbers() && p <= tm.info.Keys && forall e :: e in p ==> tm.info[e].Spawning? && tm.info[e].c in slots
      ensures |p| <= |slots|
      decreases p
    {
      if p != {} {
        assert (forall x :: x !in p) ==> p == {};
        var e :| e in p;
        forall d | d in p && d != e
          ensures tm.info[d].c != tm.info[e].c
        {
        }
        Injective(p - {e}, slots - {tm.info[e].c});
      }
    }

    /** How it stands behind c copies. */
    ghost predicate Progress(c: nat, ok: seq<bool>, sync: bool)
      reads `nspawned, tm`next, tm`info, tm`pending, tm`tasks, tm`asked, tid, eventsSpawn, eventsObit
    {
      Spawned(c, ok) && if sync then AllDone(ok) else Unpolled(ok) && tm.tasks == map[]
    }

    /** The body of the loop of main for copy number c. */
    method Copy(c: nat, node: nat, sync: bool, ghost ok: seq<bool>) returns (status: nat, done: bool)
      requires Flagged()
      requires Progress(c, ok, sync) && c < tid.Length && !tm.ended
      modifies this, tm, tid, eventsSpawn, eventsObit
      ensures Flagged() && old(caught) <= caught
      ensures Launched(old(tm.launches), tm.launches, c, node, done)
      ensures status in {0, 1, 2, 3} && (tm.ended <==> status == 3) && (status != 0 ==> sync)
      ensures status == 0 ==> Progress(c + 1, ok + [done], sync)
      ensures status == 1 ==> firePhasers != 0
      ensures status == 2 ==> tm.broken
      ensures tm.polls <= old(tm.polls) + (if sync then 2 else 0) + if status >= 2 then 1 else 0
    {
      done := SpawnCopy(c, node, ok);
      assert (ok + [done])[..c] == ok;
      status := 0;
      if done && sync {
        status := WaitOne(c, ok);
      }
    }

    /** The spawning and the waiting. */
    method Run(start: nat, copies: nat, nodes: nat, sync: bool) returns (status: nat, ok: seq<bool>)
      requires Flagged()
      requires Valid() && copies <= tid.Length && nspawned == 0 && nodes > 0
      requires tm.info == map[] && tm.pending == {} && tm.asked == {} && tm.launches == [] && !tm.ended
      modifies this, tm, tid, eventsSpawn, eventsObit
      ensures Flagged() && old(caught) <= caught
      ensures AllLaunched(tm.launches, start, nodes, ok)
      ensures status in {0, 1, 2, 3} && (tm.ended <==> status == 3) && |ok| <= copies
      ensures status == 0 ==> |ok| == copies && Spawned(copies, ok) && AllDone(ok) && (sync || Covered(ok))
      ensures status == 1 ==> caught != [] && firePhasers == caught[|caught| - 1]
      ensures status == 2 ==> tm.broken || (!sync && !Covered(ok))
      ensures tm.polls <= old(tm.polls) + 2 * |ok| + if status >= 2 then 1 else 0
      ensures |ok| == copies || (sync && status != 0)
    {
      ok := [];
      var c := 0;
      assert Progress(0, [], sync);
      hide Spawned, AllDone, Unpolled, Covered, Flagged, Launched, AllLaunched;
      while c < copies
        invariant Flagged() && old(caught) <= caught
        invariant c <= copies && |ok| == c && Progress(c, ok, sync) && !tm.ended
        invariant AllLaunched(tm.launches, start, nodes, ok)
        invariant tm.polls <= old(tm.polls) + if sync then 2 * |ok| else 0
      {
        ghost var before := tm.launches;
        var done;
        status, done := Copy(c, (start + c) % nodes, sync, ok);
        LaunchedNext(before, tm.launches, start, nodes, ok, done);
        ok := ok + [done];
        if status != 0 {
          if status == 1 {
            FlagIsLast();
          }
          return;
        }
        c := c + 1;
      }
      status := 0;
      if !sync {
        status := WaitAll(ok);
        if status == 1 {
          FlagIsLast();
        }
      }
    }
  }
}
