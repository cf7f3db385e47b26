/** The connections of qmgr and the names that refer to them (src/cmds/qmgr.c:1597-1664, 1766-1800, 2356-2456,
    2583-2966, 2997-3092, 3847-4177). */
module ServerPool {
  import opened CText

  /** struct server */
  class Server {
    const name: string
    var connect: int
    var ref: int

    /** new_server */
    constructor (name: string, connect: int)
      ensures this.name == name && this.connect == connect && ref == 0
    {
      this.name, this.connect, ref := name, connect, 0;
    }
  }

  /** struct objname. A null svrName stands for the active servers. */
  class ObjName {
    var objName: Option<string>
    var svrName: Option<string>
    var svr: Server?

    /** new_objname */
    constructor (objName: Option<string>, svrName: Option<string>)
      ensures this.objName == objName && this.svrName == svrName && svr == null
    {
      this.objName, this.svrName, svr := objName, svrName, null;
    }
  }

  predicate NoDup<T(==)>(s: seq<T>) {
    forall i, j :: 0 <= i < j < |s| ==> s[i] != s[j]
  }

  /** The elements that are in the set, in their order. */
  function Among<T(==)>(s: seq<T>, keep: set<T>): (r: seq<T>)
    ensures |r| <= |s|
  {
    if s == [] then []
    else Among(s[..|s| - 1], keep) + if s[|s| - 1] in keep then [s[|s| - 1]] else []
  }

  lemma {:induction false} AmongAre<T>(s: seq<T>, keep: set<T>, x: T)
    ensures x in Among(s, keep) <==> x in s && x in keep
  {
    if s != [] {
      AmongAre(s[..|s| - 1], keep, x);
      assert s == s[..|s| - 1] + [s[|s| - 1]];
    }
  }

  lemma {:induction false} AmongStep<T>(s: seq<T>, keep: set<T>, k: nat)
    requires k < |s|
    ensures Among(s[..k + 1], keep) == Among(s[..k], keep) + if s[k] in keep then [s[k]] else []
  {
    assert s[..k + 1][..k] == s[..k];
  }

  /** Of orig, the first k elements have been looked at: those to be kept are in front of position i of what is left,
      the others have been closed. */
  predicate Closing<T(==)>(orig: seq<T>, keep: set<T>, k: nat, now: seq<T>, i: nat, closed: set<T>) {
    && k <= |orig| && i == |Among(orig[..k], keep)| && now == Among(orig[..k], keep) + orig[k..]
    && forall j :: 0 <= j < k && orig[j] !in keep ==> orig[j] in closed
  }

  lemma {:induction false} ClosingStart<T>(orig: seq<T>, keep: set<T>)
    ensures Closing(orig, keep, 0, orig, 0, {})
  {
  }

  lemma {:induction false} ClosingNext<T>(orig: seq<T>, keep: set<T>, k: nat, now: seq<T>, i: nat, closed: set<T>)
    requires Closing(orig, keep, k, now, i, closed) && i < |now|
    ensures k < |orig| && now[i] == orig[k] && now[i] in orig
  {
    hide Among;
  }

  lemma {:induction false} ClosingKeep<T>(orig: seq<T>, keep: set<T>, k: nat, now: seq<T>, i: nat, closed: set<T>)
    requires Closing(orig, keep, k, now, i, closed) && i < |now| && now[i] in keep
    ensures Closing(orig, keep, k + 1, now, i + 1, closed)
  {
    AmongStep(orig, keep, k);
    hide Among;
    var some, rest := Among(orig[..k], keep), orig[k + 1..];
    assert orig[k..] == [orig[k]] + rest;
    assert now == some + [orig[k]] + rest;
  }

  lemma {:induction false} ClosingDrop<T>(orig: seq<T>, keep: set<T>, k: nat, now: seq<T>, i: nat, closed: set<T>)
    requires Closing(orig, keep, k, now, i, closed) && i < |now| && now[i] !in keep
    ensures Closing(orig, keep, k + 1, now[..i] + now[i + 1..], i, closed + {now[i]})
  {
    AmongStep(orig, keep, k);
    hide Among;
    var some, rest := Among(orig[..k], keep), orig[k + 1..];
    assert orig[k..] == [orig[k]] + rest;
    assert now[..i] == some && now[i + 1..] == rest;
  }

  lemma {:induction false} ClosingEnd<T>(orig: seq<T>, keep: set<T>, k: nat, now: seq<T>, i: nat, closed: set<T>,
                                         idle: set<T>)
    requires Closing(orig, keep, k, now, i, closed) && i >= |now|
    requires forall x :: x in idle ==> x in orig && x !in keep
    ensures now == Among(orig, keep) && idle <= closed
    ensures forall x :: x in now ==> x in orig
  {
    assert orig[..k] == orig;
    forall x | x in now
      ensures x in orig
    {
      AmongAre(orig, keep, x);
    }
  }

  lemma {:induction false} InFront<T>(x: T, a: seq<T>, b: seq<T>)
    ensures [x] + (a + b) == [x] + a + b
  {
  }

  lemma {:induction false} Removed<T>(s: seq<T>, k: nat)
    requires NoDup(s) && k < |s|
    ensures NoDup(s[..k] + s[k + 1..])
    ensures forall x :: x in s[..k] + s[k + 1..] <==> x in s && x != s[k]
  {
    var r := s[..k] + s[k + 1..];
    forall x | x in s && x != s[k]
      ensures x in r
    {
      var i :| 0 <= i < |s| && s[i] == x;
      assert r[if i < k then i else i - 1] == x;
    }
  }

  /** What an active list or a request is about; hooks and resources have no active list. */
  datatype Kind = Servers | Scheds | Queues | Nodes | OtherKind

  datatype Lists = Lists(servers: seq<ObjName>, scheds: seq<ObjName>, queues: seq<ObjName>, nodes: seq<ObjName>) {
    function Get(kind: Kind): seq<ObjName> {
      match kind
      case Servers => servers
      case Scheds => scheds
      case Queues => queues
      case Nodes => nodes
      case OtherKind => []
    }

    function Put(kind: Kind, names: seq<ObjName>): Lists {
      match kind
      case Servers => this.(servers := names)
      case Scheds => this.(scheds := names)
      case Queues => this.(queues := names)
      case Nodes => this.(nodes := names)
      case OtherKind => this
    }

    ghost function All(): set<ObjName> {
      Names(servers) + Names(scheds) + Names(queues) + Names(nodes)
    }

    /** No name is in two lists or twice in one. */
    ghost predicate Separate() {
      && NoDup(servers) && NoDup(scheds) && NoDup(queues) && NoDup(nodes)
      && Names(servers) !! Names(scheds) !! Names(queues) !! Names(nodes)
    }
  }

  lemma {:induction false} PutKeeps(l: Lists, kind: Kind, names: seq<ObjName>)
    requires l.Separate() && NoDup(names) && Names(names) !! l.All() && !kind.OtherKind?
    ensures l.Put(kind, names).Separate() && l.Put(kind, names).All() == l.All() - Names(l.Get(kind)) + Names(names)
    ensures Names(l.Get(kind)) <= l.All() && NoDup(l.Get(kind))
  {
  }

  ghost function Names(list: seq<ObjName>): set<ObjName> {
    set o | o in list
  }

  lemma {:induction false} CardOfNames(list: seq<ObjName>)
    requires NoDup(list)
    ensures |Names(list)| == |list|
  {
    if list == [] {
      assert Names(list) == {};
    } else {
      var n := |list| - 1;
      CardOfNames(list[..n]);
      assert Names(list) == Names(list[..n]) + {list[n]};
    }
  }

  /** A line of input, behind the parsing. */
  datatype Command = Command(activate: bool, kind: Kind, entries: seq<Entry>, skips: nat -> bool)

  type Entry = (Option<string>, Option<string>)

  lemma {:induction false} LeakSame<T>(live: set<T>, names: set<T>, active: set<T>, gone: set<T>, temp: T)
    requires gone <= active <= live - {temp} && names !! live && temp in live
    ensures live + names - gone - {temp} - (active - gone + names) == live - {temp} - active
    ensures live + names - names - {temp} - active == live - {temp} - active
  {
  }

  lemma {:induction false} LeakCount<T>(before: set<T>, names: set<T>, lost: set<T>, after: set<T>)
    requires names !! before && lost <= names && after == before + names - names + lost
    ensures after == before + lost && |after| == |before| + |lost|
  {
    assert after == before + lost;
  }

  lemma {:induction false} LeakRequested<T>(live: set<T>, names: set<T>, active: set<T>, temp: T)
    requires names <= live - {temp} - active
    ensures live - {} - {temp} - active == live - {temp} - active - names + names
    ensures live - names - {temp} - active == live - {temp} - active - names + {}
  {
  }

  lemma {:induction false} LeakGrown<T>(live: set<T>, names: set<T>, active: set<T>, temp: T)
    requires names !! live && active <= live && temp in live
    ensures live + names - {temp} - active == live - {temp} - active + names
    ensures names !! live - {temp} - active
  {
  }

  lemma {:induction false} LeakMore<T>(live: set<T>, names: set<T>, active: set<T>, temp: T)
    requires active <= live - {temp} && names !! live && temp in live
    ensures live + names - {temp} - active == (live - {temp} - active) + names
  {
  }

  /** The active lists after set active. */
  function Next(l: Lists, kind: Kind, names: seq<ObjName>, error: bool): Lists {
    if error || names == [] then l else l.Put(kind, names)
  }

  /** The names that set active frees: those it takes the place of, or wrong names of servers and schedulers. */
  function Gone(l: Lists, kind: Kind, names: seq<ObjName>, error: bool): seq<ObjName> {
    if names == [] then []
    else if !error then l.Get(kind)
    else if Leaks(kind) then []
    else names
  }

  /** Wrong names of the kind are not freed. */
  predicate Leaks(kind: Kind) {
    !kind.Servers? && !kind.Scheds?
  }

  /** What set active leaks, with before the names that were live before the command. */
  lemma {:induction false} LeakAfter(before: set<ObjName>, l: Lists, kind: Kind, names: seq<ObjName>, error: bool,
                                     temp: ObjName)
    requires l.Separate() && l.All() <= before - {temp} && temp in before && NoDup(names) && Names(names) !! before
    requires kind.OtherKind? && names != [] ==> error
    ensures before + Names(names) - Names(Gone(l, kind, names, error)) - {temp} - Next(l, kind, names, error).All() ==
            before - {temp} - l.All() + Names(if error && Leaks(kind) then names else [])
  {
    hide Lists.All, Lists.Separate, Lists.Get, Lists.Put;
    assert Names([]) == {} && (names == [] ==> Names(names) == {});
    if error && Leaks(kind) {
      LeakMore(before, Names(names), l.All(), temp);
    } else if names != [] {
      NamesOfKind(l, kind);
      LeakSame(before, Names(names), l.All(), Names(l.Get(kind)), temp);
      if !error {
        PutKeeps(l, kind, names);
      }
    }
  }

  lemma {:induction false} NamesOfKind(l: Lists, kind: Kind)
    ensures Names(l.Get(kind)) <= l.All()
  {
  }

  // ----- where execute asks -----

  /** What became of one turn of the inner loop of execute. Skipped means that the file of an import or export could
      not be used, so that the rest of the turn was left out; kept is false when what was exported could not be put
      where it should be; lost means that the server has disconnected. */
  datatype Result =
    | NoConnection(name: string) | Skipped(server: Server) | Answered(server: Server, kept: bool)
    | Refused(server: Server, lost: bool)

  /** A turn for an object; own says that the object named its server, which the static name stands for. */
  datatype Turn = Turn(own: bool, about: Option<string>, result: Result) {
    predicate Asked() {
      result.Answered? || result.Refused?
    }

    /** It is an error. */
    predicate Bad() {
      !result.Answered? || !result.kept
    }

    /** What qmgr ends with at once, when not 0. */
    function Code(aopt: bool): nat {
      if !result.Refused? then 0 else if result.lost then 1 else if aopt then 2 else 0
    }
  }

  predicate SomeBad(ts: seq<Turn>) {
    exists i :: 0 <= i < |ts| && ts[i].Bad()
  }

  lemma {:induction false} BadOn(ts: seq<Turn>, us: seq<Turn>)
    ensures SomeBad(ts + us) <==> SomeBad(ts) || SomeBad(us)
  {
    if i :| 0 <= i < |ts| && ts[i].Bad() {
      assert (ts + us)[i].Bad();
    }
    if i :| 0 <= i < |us| && us[i].Bad() {
      assert (ts + us)[|ts| + i].Bad();
    }
  }

  /** A turn goes without a connection only when none could be made under the name, or none more is allowed. */
  predicate AllExcused(turns: seq<Turn>, unreached: set<string>, full: bool) {
    full || forall i :: 0 <= i < |turns| && turns[i].result.NoConnection? ==> turns[i].result.name in unreached
  }

  /** A server, or when there is no connection to it yet its name. */
  datatype Target = Target(svr: Server?, name: string)

  /** A connection may have been made in the meantime. */
  predicate Later(before: Target, now: Target) {
    now.name == before.name &&
    if before.svr != null then now.svr == before.svr else now.svr != null ==> now.svr.name == before.name
  }

  /** A turn that should take place. */
  datatype Wish = Wish(own: bool, about: Option<string>, to: Target)

  /** The turn is about the object, and at the known server or at one connected under the name. */
  predicate Fulfils(t: Turn, w: Wish) {
    && t.own == w.own && t.about == w.about
    && if t.result.NoConnection? then w.to.svr == null && t.result.name == w.to.name
       else if w.to.svr != null then t.result.server == w.to.svr
       else t.result.server.name == w.to.name
  }

  predicate Follow(ts: seq<Turn>, ws: seq<Wish>) {
    |ts| <= |ws| && forall i :: 0 <= i < |ts| ==> Fulfils(ts[i], ws[i])
  }

  /** An object to ask about, the server that it names and where that is. */
  datatype Plan = Plan(about: Option<string>, svrName: Option<string>, to: Target)

  /** About the same object at each of the active servers. */
  function Each(about: Option<string>, active: seq<Target>): (ws: seq<Wish>)
    ensures |ws| == |active| && forall i :: 0 <= i < |ws| ==> ws[i] == Wish(false, about, active[i])
  {
    if active == [] then [] else Each(about, active[..|active| - 1]) + [Wish(false, about, active[|active| - 1])]
  }

  lemma {:induction false} EachStep(about: Option<string>, active: seq<Target>, i: nat)
    requires i <= |active|
    ensures i < |active| ==> Each(about, active[..i + 1]) == Each(about, active[..i]) + [Wish(false, about, active[i])]
    ensures i == 0 ==> Each(about, active[..i]) == []
  {
    if i < |active| {
      assert active[..i + 1][..i] == active[..i];
    }
  }

  lemma {:induction false} EachRest(about: Option<string>, active: seq<Target>, i: nat)
    requires i <= |active|
    ensures |Each(about, active)| == |active|
    ensures Each(about, active[..i]) + Each(about, active)[i..] == Each(about, active)
  {
  }

  /** About an object once at its own server, or once at every active one. */
  function About(p: Plan, active: seq<Target>): seq<Wish> {
    if p.svrName.Some? then [Wish(true, p.about, p.to)] else Each(p.about, active)
  }

  /** About all objects, one after the other. */
  function Wishes(ps: seq<Plan>, active: seq<Target>): seq<Wish> {
    if ps == [] then [] else Wishes(ps[..|ps| - 1], active) + About(ps[|ps| - 1], active)
  }

  lemma {:induction false} WishesStep(ps: seq<Plan>, i: nat, active: seq<Target>)
    requires i <= |ps|
    ensures i < |ps| ==> Wishes(ps[..i + 1], active) == Wishes(ps[..i], active) + About(ps[i], active)
    ensures i == 0 ==> Wishes(ps[..i], active) == []
  {
    if i < |ps| {
      assert ps[..i + 1][..i] == ps[..i];
    }
  }

  lemma {:induction false} WishesRest(ps: seq<Plan>, i: nat, active: seq<Target>)
    requires i <= |ps|
    ensures Wishes(ps[..i], active) <= Wishes(ps, active)
    decreases |ps|
  {
    if i < |ps| {
      WishesRest(ps[..|ps| - 1], i, active);
      assert ps[..|ps| - 1][..i] == ps[..i];
    } else {
      assert ps[..i] == ps;
    }
  }

  /** Something to ask about, at the server of that name. */
  datatype Errand = Errand(own: bool, about: Option<string>, name: string)

  function Host(t: Target): string {
    if t.svr != null then t.svr.name else t.name
  }

  /** At each of the active servers. */
  function AtEach(about: Option<string>, active: seq<Target>): (es: seq<Errand>)
    ensures |es| == |active| && forall i :: 0 <= i < |es| ==> es[i] == Errand(false, about, Host(active[i]))
  {
    if active == [] then []
    else AtEach(about, active[..|active| - 1]) + [Errand(false, about, Host(active[|active| - 1]))]
  }

  /** What a list of names in a command asks for: each object at its own server, or at all active ones. */
  function Errands(entries: seq<Entry>, active: seq<Target>): seq<Errand> {
    if entries == [] then []
    else
      var (about, svrName) := entries[|entries| - 1];
      Errands(entries[..|entries| - 1], active) +
      if svrName.Some? then [Errand(true, about, svrName.value)] else AtEach(about, active)
  }

  /** The plans are made for the entries. */
  predicate PlannedFor(ps: seq<Plan>, entries: seq<Entry>) {
    && |ps| == |entries|
    && forall i :: 0 <= i < |ps| ==>
         ps[i].about == entries[i].0 && ps[i].svrName == entries[i].1 && ps[i].to.name == entries[i].1.GetOr("") &&
         (ps[i].to.svr != null ==> entries[i].1 == Some(ps[i].to.svr.name))
  }

  predicate Matches(w: Wish, e: Errand) {
    w.own == e.own && w.about == e.about && Host(w.to) == e.name
  }

  predicate AllMatch(ws: seq<Wish>, es: seq<Errand>) {
    |ws| == |es| && forall i :: 0 <= i < |ws| ==> Matches(ws[i], es[i])
  }

  lemma {:induction false} MatchOn(ws: seq<Wish>, es: seq<Errand>, vs: seq<Wish>, fs: seq<Errand>)
    requires AllMatch(ws, es) && AllMatch(vs, fs)
    ensures AllMatch(ws + vs, es + fs)
  {
    hide Matches;
  }

  lemma {:induction false} AboutMatches(p: Plan, e: Entry, active: seq<Target>)
    requires PlannedFor([p], [e])
    ensures AllMatch(About(p, active), if e.1.Some? then [Errand(true, e.0, e.1.value)] else AtEach(e.0, active))
  {
    assert [p][0] == p && [e][0] == e;
  }

  lemma {:induction false} WishesMatch(ps: seq<Plan>, entries: seq<Entry>, active: seq<Target>)
    requires PlannedFor(ps, entries)
    ensures AllMatch(Wishes(ps, active), Errands(entries, active))
  {
    if ps != [] {
      var n := |ps| - 1;
      assert PlannedFor(ps[..n], entries[..n]) && PlannedFor([ps[n]], [entries[n]]);
      hide PlannedFor, About, AtEach, AllMatch;
      WishesMatch(ps[..n], entries[..n], active);
      AboutMatches(ps[n], entries[n], active);
      var e := entries[n];
      MatchOn(Wishes(ps[..n], active), Errands(entries[..n], active), About(ps[n], active),
              if e.1.Some? then [Errand(true, e.0, e.1.value)] else AtEach(e.0, active));
    }
  }

  /** How a command leaves the active servers: those that it activates, which are connected under the names given, or
      the same, which may have been connected. */
  predicate HostStep(a: seq<Target>, c: Command, r: Outcome, b: seq<Target>) {
    if c.activate && c.kind.Servers? && !r.error && c.entries != [] then HostsFor(c.entries, b) else Hosted(a, b)
  }

  predicate Hosted(a: seq<Target>, b: seq<Target>) {
    |b| == |a| && forall i :: 0 <= i < |a| ==> Later(a[i], b[i])
  }

  predicate HostsFor(entries: seq<Entry>, b: seq<Target>) {
    && |b| == |entries|
    && forall i :: 0 <= i < |b| ==>
         b[i].name == entries[i].1.GetOr("") && b[i].svr != null &&
         (entries[i].0 == Some(b[i].svr.name) || b[i].svr.name == b[i].name)
  }

  /** The turn does the errand, at a server of the name if at any. */
  predicate Does(t: Turn, e: Errand) {
    t.own == e.own && t.about == e.about &&
    if t.result.NoConnection? then t.result.name == e.name else t.result.server.name == e.name
  }

  /** The errands were done in order, up to a refusal at which qmgr ends, and to the last one if there was none; it is
      an error exactly if one of them failed. */
  predicate Carried(ts: seq<Turn>, es: seq<Errand>, aopt: bool, error: bool, code: nat) {
    && |ts| <= |es| && (forall i :: 0 <= i < |ts| ==> Does(ts[i], es[i]))
    && (error <==> exists i :: 0 <= i < |ts| && ts[i].Bad())
    && (forall i :: 0 <= i < |ts| && ts[i].result.Refused? && (ts[i].result.lost || aopt) ==>
          i == |ts| - 1 && code == if ts[i].result.lost then 1 else 2)
    && (code == 0 ==> |ts| == |es|)
    && (code != 0 ==>
          ts != [] && ts[|ts| - 1].result.Refused? && (ts[|ts| - 1].result.lost || aopt))
  }

  /** The same for a request, which is about the objects of the active list when it names none. */
  predicate Served(ts: seq<Turn>, entries: seq<Entry>, implied: seq<Plan>, active: seq<Target>, how: Setting,
                   r: Outcome, before: Server?, after: Server?) {
    if entries != [] then Carried(ts, Errands(entries, active), how.aopt, r.error, r.code)
    else Went(ts, Wishes(implied, active), how, 0, r.error, r.code, before, after)
  }

  predicate ToHosts(ps: seq<Plan>, active: seq<Target>) {
    |ps| == |active| && forall i :: 0 <= i < |ps| ==> ps[i].to == active[i]
  }

  /** The turns of a command, what it was about when it named nothing, the active servers, and the server that the
      static name referred to before and after. */
  datatype Record = Record(turns: seq<Turn>, implied: seq<Plan>, active: seq<Target>, before: Server?, after: Server?)

  predicate Recorded(c: Command, aopt: bool, r: Outcome, record: Record) {
    if c.activate then record.turns == [] && r.code == 0
    else
      && Served(record.turns, c.entries, record.implied, record.active, Setting(aopt, c.skips), r, record.before,
                record.after)
      && (!c.kind.Queues? && !c.kind.Nodes? ==> ToHosts(record.implied, record.active))
  }

  lemma {:induction false} RecordIs(c: Command, aopt: bool, r: Outcome, record: Record)
    requires !c.kind.Queues? && !c.kind.Nodes? ==> ToHosts(record.implied, record.active)
    requires if c.activate then record.turns == [] && r.code == 0
             else Served(record.turns, c.entries, record.implied, record.active, Setting(aopt, c.skips), r,
                         record.before, record.after)
    ensures Recorded(c, aopt, r, record)
    ensures Lost(c, r) == if (if c.activate then r.error && Leaks(c.kind) else r.code != 0) then |c.entries| else 0
  {
    hide Served, ToHosts;
  }

  lemma {:induction false} RequestSteps(c: Command, r: Outcome, a: seq<Target>, b: seq<Target>)
    requires !c.activate && Hosted(a, b)
    ensures HostStep(a, c, r, b)
  {
  }

  /** What the end of a session is compared with. */
  datatype Past = Past(nservers: int, leaked: nat, leakSvr: Server?, log: seq<Turn>, targets: seq<Target>)

  /** All turns of the commands. */
  function AllTurns(records: seq<Record>): seq<Turn> {
    if records == [] then [] else AllTurns(records[..|records| - 1]) + records[|records| - 1].turns
  }

  lemma {:induction false} AllTurnsStep(records: seq<Record>, r: Record)
    ensures AllTurns(records + [r]) == AllTurns(records) + r.turns
  {
    assert (records + [r])[..|records|] == records;
  }

  lemma {:induction false} ErrandDone(t: Turn, w: Wish, e: Errand)
    requires Fulfils(t, w) && Matches(w, e)
    ensures Does(t, e)
  {
  }

  lemma {:induction false} WentCarried(ts: seq<Turn>, ps: seq<Plan>, entries: seq<Entry>, active: seq<Target>,
                                       how: Setting, error: bool, code: nat, before: Server?, after: Server?)
    requires PlannedFor(ps, entries)
    requires Went(ts, Wishes(ps, active), how, 0, error, code, before, after)
    ensures Carried(ts, Errands(entries, active), how.aopt, error, code)
  {
    WishesMatch(ps, entries, active);
    var ws, es := Wishes(ps, active), Errands(entries, active);
    hide Wishes, Errands, Static, Fulfils, Matches, Does, PlannedFor;
    forall i | 0 <= i < |ts|
      ensures Does(ts[i], es[i])
    {
      ErrandDone(ts[i], ws[i], es[i]);
    }
    forall i | 0 <= i < |ts|
      ensures ts[i].Code(how.aopt) == if i == |ts| - 1 then code else 0
    {
      assert Turned(ts[i], how, 0 + i, if i == |ts| - 1 then code else 0);
    }
  }

  lemma {:induction false} ServedBy(ts: seq<Turn>, entries: seq<Entry>, plans: seq<Plan>, implied: seq<Plan>,
                                    active: seq<Target>, how: Setting, error: bool, code: nat, before: Server?,
                                    after: Server?)
    requires PlannedFor(plans, entries)
    requires Went(ts, Wishes(if entries != [] then plans else implied, active), how, 0, error, code, before, after)
    ensures Served(ts, entries, implied, active, how, Outcome(error, code), before, after)
  {
    hide Went, Wishes, Carried, Errands, PlannedFor;
    if entries != [] {
      WentCarried(ts, plans, entries, active, how, error, code, before, after);
    }
  }

  /** The server that the static name refers to after the turns. Clearing it is part of what a skipped turn leaves
      out. */
  function Static(before: Server?, ts: seq<Turn>): Server? {
    if ts == [] then before
    else
      var t := ts[|ts| - 1];
      if t.own then (if t.result.Skipped? then t.result.server else null)
      else if t.Asked() then null
      else Static(before, ts[..|ts| - 1])
  }

  lemma {:induction false} StaticOn(before: Server?, ts: seq<Turn>, us: seq<Turn>)
    ensures Static(before, ts + us) == Static(Static(before, ts), us)
  {
    if us == [] {
      assert ts + us == ts;
    } else {
      assert (ts + us)[..|ts| + |us| - 1] == ts + us[..|us| - 1];
      StaticOn(before, ts, us[..|us| - 1]);
    }
  }

  /** Whether qmgr gives up at an error, and which turns of a command find a file that cannot be used. */
  datatype Setting = Setting(aopt: bool, skips: nat -> bool)

  /** No turn finds a file that cannot be used. */
  ghost predicate FilesUsable(skips: nat -> bool) {
    forall k: nat :: !skips(k)
  }

  /** The turns ts, of which the first was number k of the command, went by the wishes ws and by the setting, up to one
      that ends qmgr with the code; it is an error exactly if one of them is; and the static name referred to before and
      then to after. */
  predicate Went(ts: seq<Turn>, ws: seq<Wish>, how: Setting, k: nat, error: bool, code: nat,
                 before: Server?, after: Server?) {
    && Follow(ts, ws) && (code == 0 ==> |ts| == |ws| && after == Static(before, ts))
    && (error <==> SomeBad(ts)) && (ts == [] ==> code == 0)
    && (forall i :: 0 <= i < |ts| ==> Turned(ts[i], how, k + i, if i == |ts| - 1 then code else 0))
  }

  /** What one turn, number k of the command, may come to. */
  predicate Turned(t: Turn, how: Setting, k: nat, code: nat) {
    (t.result.Skipped? ==> how.skips(k)) && (t.Asked() ==> !how.skips(k)) && code == t.Code(how.aopt)
  }

  lemma {:induction false} WentNowhere(how: Setting, k: nat, before: Server?)
    ensures Went([], [], how, k, false, 0, before, before)
  {
  }

  lemma {:induction false} WentOnce(t: Turn, w: Wish, how: Setting, k: nat, code: nat, before: Server?,
                                    after: Server?)
    requires Fulfils(t, w) && Turned(t, how, k, code)
    requires code == 0 ==>
               after == if t.own then (if t.result.Skipped? then t.result.server else null)
                        else if t.Asked() then null else before
    ensures Went([t], [w], how, k, t.Bad(), code, before, after)
  {
    assert [t][..0] == [];
    assert t.Bad() ==> [t][0].Bad();
  }

  lemma {:induction false} WentOn(ts: seq<Turn>, ws: seq<Wish>, how: Setting, k: nat, error: bool, before: Server?,
                                  between: Server?, us: seq<Turn>, vs: seq<Wish>, failed: bool, code: nat,
                                  after: Server?)
    requires Went(ts, ws, how, k, error, 0, before, between)
    requires Went(us, vs, how, k + |ts|, failed, code, between, after)
    ensures Went(ts + us, ws + vs, how, k, error || failed, code, before, after)
    ensures code == 0 ==> |ts + us| == |ws + vs|
  {
    StaticOn(before, ts, us);
    BadOn(ts, us);
    hide Static, SomeBad;
    forall i | 0 <= i < |ts + us|
      ensures Turned((ts + us)[i], how, k + i, if i == |ts + us| - 1 then code else 0)
    {
      if i < |ts| {
        assert Turned(ts[i], how, k + i, 0);
      } else {
        assert Turned(us[i - |ts|], how, k + |ts| + (i - |ts|), if i - |ts| == |us| - 1 then code else 0);
      }
    }
  }

  /** The wishes that are left do not matter once the command has been given up. */
  lemma {:induction false} WentShort(ts: seq<Turn>, ws: seq<Wish>, vs: seq<Wish>, how: Setting, k: nat, error: bool,
                                     code: nat, before: Server?, after: Server?)
    requires Went(ts, ws, how, k, error, code, before, after) && code != 0
    ensures Went(ts, ws + vs, how, k, error, code, before, after)
  {
    hide Static, SomeBad;
  }

  /** The turns from i on leave the static name alone. */
  predicate LeavesStatic(ts: seq<Turn>, i: nat) {
    forall j :: i <= j < |ts| ==> !ts[j].own && !ts[j].Asked()
  }

  /** The static name refers to a server after a command, if and only if one of its own turns was skipped, or it did
      before, and no turn since was an own one or asked a server. */
  lemma {:induction false} StaticNameStays(before: Server?, ts: seq<Turn>)
    ensures Static(before, ts) != null <==>
            (before != null && LeavesStatic(ts, 0)) ||
            exists i :: 0 <= i < |ts| && ts[i].own && ts[i].result.Skipped? && LeavesStatic(ts, i + 1)
  {
    if ts != [] {
      var n := |ts| - 1;
      var some, t := ts[..n], ts[n];
      StaticNameStays(before, some);
      assert forall i :: 0 <= i < n ==> some[i] == ts[i];
      if t.own {
        assert t.result.Skipped? ==> LeavesStatic(ts, n + 1);
      } else if !t.Asked() {
        assert forall i :: 0 <= i <= n ==> LeavesStatic(ts, i) == LeavesStatic(some, i);
      }
    }
  }

  lemma {:induction false} NothingSkipped(ts: seq<Turn>, ws: seq<Wish>, how: Setting, error: bool, after: Server?)
    requires Went(ts, ws, how, 0, error, 0, null, after) && FilesUsable(how.skips)
    ensures after == null
  {
    StaticNameStays(null, ts);
    hide Static, Follow, LeavesStatic, SomeBad;
    assert forall i :: 0 <= i < |ts| ==> Turned(ts[i], how, i, 0) ==> !ts[i].result.Skipped?;
  }

  /** A request about one object at its own, connected server, whose file cannot be used. */
  lemma {:induction false} OwnTurnSkipped(ts: seq<Turn>, plan: Plan, active: seq<Target>, how: Setting, error: bool,
                                          code: nat, before: Server?, after: Server?)
    requires Went(ts, Wishes([plan], active), how, 0, error, code, before, after)
    requires plan.svrName.Some? && plan.to.svr != null && how.skips(0)
    ensures error && code == 0 && after == plan.to.svr
  {
    WishesStep([plan], 0, active);
    assert [plan][..1] == [plan] && [plan][..0] == [];
    assert Wishes([plan], active) == [Wish(true, plan.about, plan.to)];
    hide Wishes;
    if ts != [] {
      assert |ts| == 1 && Turned(ts[0], how, 0 + 0, code) && Fulfils(ts[0], Wish(true, plan.about, plan.to));
      assert ts[0].result == Skipped(plan.to.svr);
    }
  }

  /** What a command came to: an error, and the code that qmgr ends with at once unless it is 0. */
  datatype Outcome = Outcome(error: bool, code: nat) {
    predicate Ends(aopt: bool) {
      code != 0 || (aopt && error)
    }
  }

  /** How many names a command leaks. */
  function Lost(c: Command, r: Outcome): nat {
    if (if c.activate then r.error && Leaks(c.kind) else r.code != 0) then |c.entries| else 0
  }

  /** How many names the first commands leak. */
  function LostBy(cs: seq<Command>, rs: seq<Outcome>): nat
    requires |rs| <= |cs|
  {
    if rs == [] then 0 else LostBy(cs, rs[..|rs| - 1]) + Lost(cs[|rs| - 1], rs[|rs| - 1])
  }

  lemma {:induction false} LostStep(cs: seq<Command>, rs: seq<Outcome>, r: Option<Outcome>)
    requires |rs| <= |cs| && (r.Some? ==> |rs| < |cs|)
    ensures r.Some? ==> LostBy(cs, rs + [r.value]) == LostBy(cs, rs) + Lost(cs[|rs|], r.value)
    ensures rs == [] ==> LostBy(cs, rs) == 0
  {
    if r.Some? {
      assert (rs + [r.value])[..|rs|] == rs;
    }
  }

  class Qmgr {
    var servers: seq<Server>
    var nservers: int
    var activeServers: seq<ObjName>
    var activeScheds: seq<ObjName>
    var activeQueues: seq<ObjName>
    var activeNodes: seq<ObjName>
    const temp: ObjName
    const maxConnections: nat
    /** The names that are allocated and not freed, the static one included. */
    ghost var live: set<ObjName>
    /** All servers that were ever connected. */
    ghost var pool: set<Server>
    /** All turns of the inner loop of execute so far. */
    ghost var log: seq<Turn>
    /** The names under which no connection could be made. */
    ghost var unreached: set<string>
    /** There was to be one connection more than is allowed. */
    ghost var full: bool
    /** The queues and nodes that a server did not know, each with its server. */
    ghost var unknown: set<(Option<string>, Server)>

    /** The names that refer to the server. */
    ghost function Pointing(s: Server): set<ObjName>
      reads this`live, live`svr
    {
      set o | o in live && o.svr == s
    }

    /** The servers that are referred to, in the order of the list. */
    ghost function Referenced(): seq<Server>
      reads this, servers
    {
      Among(servers, InUse())
    }

    ghost function InUse(): set<Server>
      reads this, servers
    {
      set s | s in servers && s.ref != 0
    }

    function Active(): Lists
      reads this`activeServers, this`activeScheds, this`activeQueues, this`activeNodes
    {
      Lists(activeServers, activeScheds, activeQueues, activeNodes)
    }

    /** The list of connections and the counters belong together, and every name refers to a connection that is open. */
    ghost predicate Counted()
      reads this`servers, this`nservers, this`pool, this`live, servers`connect, servers`ref, live`svr
    {
      && nservers == |servers| && NoDup(servers)
      && (forall s :: s in servers ==> s in pool && s.connect > 0 && s.ref == |Pointing(s)|)
      && (forall o :: o in live && o.svr != null ==> o.svr in servers)
    }

    ghost predicate Valid()
      reads this`servers, this`nservers, this`pool, this`live
      reads this`activeServers, this`activeScheds, this`activeQueues, this`activeNodes
      reads servers`connect, servers`ref, live`svr
    {
      Counted() && Active().Separate() && Active().All() <= live - {temp} && temp in live
    }

    ghost predicate Excused()
      reads this`log, this`unreached, this`full
    {
      AllExcused(log, unreached, full)
    }

    /** New connections are new servers, and no excuse is taken back. */
    twostate predicate Onward()
      reads this`pool, this`log, this`unreached, this`full
    {
      && (forall s :: s in pool ==> s in old(pool) || fresh(s))
      && old(unreached) <= unreached && (old(full) ==> full) && (old(Excused()) ==> Excused())
    }

    /** A list of names that the caller owns. */
    ghost predicate Own(names: seq<ObjName>)
      reads this`live, this`activeServers, this`activeScheds, this`activeQueues, this`activeNodes
    {
      NoDup(names) && Names(names) <= live - {temp} - Active().All()
    }

    constructor (maxConnections: nat)
      ensures Valid() && servers == [] && Active() == Lists([], [], [], []) && live == {temp} && fresh(temp)
      ensures this.maxConnections == maxConnections && temp.svr == null
      ensures log == [] && unreached == {} && !full
    {
      this.maxConnections := maxConnections;
      servers, nservers, pool, log, unreached, full, unknown := [], 0, {}, [], {}, false, {};
      activeServers, activeScheds, activeQueues, activeNodes := [], [], [], [];
      var t := new ObjName(None, None);
      temp, live := t, {t};
    }

    // ----- references -----

    /** A name starts to refer to a server. */
    method Point(o: ObjName, s: Server)
      requires Counted() && o in live && o.svr == null && s in servers
      modifies o`svr, s`ref
      ensures Counted() && o.svr == s && s.ref == old(s.ref) + 1
    {
      o.svr := s;
      s.ref := s.ref + 1;
      assert Pointing(s) == old(Pointing(s)) + {o};
      assert forall t :: t in servers && t != s ==> Pointing(t) == old(Pointing(t));
    }

    /** A name no longer refers to its server. */
    method Unpoint(o: ObjName)
      requires Counted() && o in live && o.svr != null
      modifies o`svr, o.svr`ref
      ensures Counted() && o.svr == null && old(o.svr).ref == old(o.svr.ref) - 1
    {
      var s := o.svr;
      s.ref := s.ref - 1;
      o.svr := null;
      assert Pointing(s) == old(Pointing(s)) - {o};
      assert forall t :: t in servers && t != s ==> Pointing(t) == old(Pointing(t));
    }

    /** The memory of a name that refers to nothing is given back. */
    method Drop(o: ObjName)
      requires Counted() && o in live && o.svr == null
      modifies o`objName, o`svrName, this`live
      ensures Counted() && live == old(live) - {o}
    {
      o.objName, o.svrName := None, None;
      live := live - {o};
      assert forall t :: t in servers ==> Pointing(t) == old(Pointing(t));
    }

    /** free_objname */
    method FreeObjName(o: ObjName)
      requires Counted() && o in live
      modifies o, pool`ref, this`live
      ensures Counted() && live == old(live) - {o} && o.svr == null
    {
      if o.svr != null {
        Unpoint(o);
      }
      Drop(o);
    }

    /** free_objname_list */
    method FreeObjNameList(list: seq<ObjName>)
      requires Counted() && NoDup(list) && Names(list) <= live
      modifies Names(list), pool`ref, this`live
      ensures Counted() && live == old(live) - Names(list)
      ensures forall o :: o in list ==> o.svr == null
    {
      var i := 0;
      while i < |list|
        invariant i <= |list| && Counted()
        invariant live == old(live) - Names(list[..i])
        invariant forall o :: o in list[..i] ==> o.svr == null
      {
        FreeObjName(list[i]);
        assert list[..i + 1] == list[..i] + [list[i]];
        i := i + 1;
      }
      assert list[..i] == list;
    }

    /** A server is closed next time iff no name refers to it. */
    lemma {:induction false} UnreferencedIsUnused(s: Server)
      requires Counted() && s in servers
      ensures s.ref >= 0
      ensures s in Referenced() <==> exists o :: o in live && o.svr == s
    {
      AmongAre(servers, InUse(), s);
      if o :| o in live && o.svr == s {
        assert o in Pointing(s);
      } else {
        assert Pointing(s) == {};
      }
    }

    // ----- connections -----

    /** disconnect_from_server, free_server: the walk along the list stops at the server. */
    method DisconnectFromServer(svr: Server, ghost k: nat)
      requires Counted() && k < |servers| && servers[k] == svr && svr.ref == 0
      modifies this`servers, this`nservers, svr`connect
      ensures Counted() && servers == old(servers[..k]) + old(servers[k + 1..]) && svr.connect == -1
    {
      assert Pointing(svr) == {} && forall o :: o in live ==> o !in Pointing(svr);
      Removed(servers, k);
      var i := 0;
      while servers[i] != svr
        invariant i <= k
        decreases k - i
      {
        i := i + 1;
      }
      assert i == k;
      servers := servers[..i] + servers[i + 1..];
      nservers := nservers - 1;
      svr.connect := -1;
      assert forall t :: t in servers ==> Pointing(t) == old(Pointing(t));
    }

    ghost function Idle(): set<Server>
      reads this, servers
    {
      set s | s in servers && s.ref == 0
    }

    twostate lemma {:induction false} InUseOrIdle(s: Server)
      requires s in old(servers) && s.ref == old(s.ref)
      ensures if s.ref == 0 then s in old(Idle()) && s !in old(InUse()) else s !in old(Idle()) && s in old(InUse())
    {
    }

    twostate lemma {:induction false} IdleOnes()
      ensures forall s :: s in old(Idle()) ==> s in old(servers) && s !in old(InUse())
    {
    }

    /** close_non_ref_servers: exactly the servers that are referred to stay, in their order and untouched. */
    method CloseNonRefServers()
      requires Counted()
      modifies this`servers, this`nservers, Idle()`connect
      ensures Counted() && servers == old(Referenced())
      ensures forall s :: s in old(Idle()) ==> s.connect == -1
      ensures forall s :: s in servers ==> s in old(servers)
    {
      ghost var orig, keep, idle, k, closed := servers, InUse(), Idle(), 0, {};
      var i := 0;
      ClosingStart(orig, keep);
      hide Counted, InUse, Idle, Among, Closing;
      while i < |servers|
        invariant Counted() && Closing(orig, keep, k, servers, i, closed) && k <= |orig|
        invariant forall s :: s in closed ==> s.connect == -1
        decreases |orig| - k
      {
        var svr := servers[i];
        ClosingNext(orig, keep, k, servers, i, closed);
        InUseOrIdle(svr);
        if svr.ref == 0 {
          ClosingDrop(orig, keep, k, servers, i, closed);
          DisconnectFromServer(svr, i);
          closed := closed + {svr};
        } else {
          ClosingKeep(orig, keep, k, servers, i, closed);
          i := i + 1;
        }
        k := k + 1;
      }
      IdleOnes();
      ClosingEnd(orig, keep, k, servers, i, closed, idle);
    }

    /** make_connection, cnt2server giving a positive number or none. */
    method MakeConnection(name: Option<string>) returns (svr: Server?)
      modifies this`unreached
      ensures unreached == old(unreached) + if svr == null then {name.GetOr("")} else {}
      ensures svr != null ==> fresh(svr) && svr.ref == 0 && svr.connect > 0 && svr.name == name.GetOr("")
    {
      var connection: int := *;
      if connection > 0 {
        svr := new Server(name.GetOr(""), connection);
      } else {
        svr, unreached := null, unreached + {name.GetOr("")};
      }
    }

    /** Puts a new connection in front of the list, for the name. */
    method AddServer(o: ObjName, svr: Server)
      requires Counted() && o in live && o.svr == null && svr !in servers && svr.ref == 0 && svr.connect > 0
      requires forall p :: p in live ==> p.svr != svr
      modifies this`servers, this`nservers, this`pool, o`svr, svr`ref
      ensures Counted() && o.svr == svr && svr.ref == 1 && servers == [svr] + old(servers) && pool == old(pool) + {svr}
    {
      assert Pointing(svr) == {};
      servers := [svr] + servers;
      pool := pool + {svr};
      nservers := nservers + 1;
      assert forall t :: t in servers ==> Pointing(t) == old(Pointing(t));
      Point(o, svr);
    }

    /** The body of the loop of connect_servers. */
    method ConnectOne(o: ObjName) returns (done: bool)
      requires Counted() && o in live && o.svr == null
      modifies this`servers, this`nservers, this`pool, this`unreached, this`full, o`svr
      ensures Counted() && (done <==> o.svr != null) && Onward()
      ensures if done
              then fresh(o.svr) && o.svr.name == o.svrName.GetOr("") && servers == [o.svr as Server] + old(servers)
              else servers == old(servers) && o.svrName.GetOr("") in unreached
      ensures full == old(full)
    {
      var svr := MakeConnection(o.svrName);
      if svr == null {
        done := false;
      } else {
        AddServer(o, svr);
        done := true;
      }
    }

    /** How many names of the list connect_servers looks at. */
    static function Considered(n: nat, numservers: int): (m: nat)
      ensures m <= n
    {
      if 0 <= numservers < n then numservers else n
    }

    /** The loop of connect_servers, in front of the connections kept. */
    method ConnectNames(names: seq<ObjName>, numservers: int, ghost kept: seq<Server>)
      returns (error: bool, ghost added: seq<Server>)
      requires Counted() && servers == kept && NoDup(names) && Names(names) <= live
      requires forall o :: o in names[..Considered(|names|, numservers)] ==> o.svr == null
      modifies this`servers, this`nservers, this`pool, this`unreached, this`full, Names(names)`svr
      ensures Counted() && servers == added + kept && fresh(added) && Onward()
      ensures forall i :: 0 <= i < |names| ==>
                if i < Considered(|names|, numservers)
                then if names[i].svr == null then names[i].svrName.GetOr("") in unreached
                     else names[i].svr in added && names[i].svr.name == names[i].svrName.GetOr("")
                else names[i].svr == old(names[i].svr)
      ensures error <==> exists i :: 0 <= i < Considered(|names|, numservers) && names[i].svr == null
      ensures |added| <= Considered(|names|, numservers) && (!error ==> |added| == Considered(|names|, numservers))
      ensures full == old(full)
    {
      hide Counted, Excused;
      error, added := false, [];
      var i, cur := numservers, 0;
      while i != 0 && cur < |names|
        invariant cur <= Considered(|names|, numservers) && i == numservers - cur
        invariant Onward() && Counted() && servers == added + kept && fresh(added) && full == old(full)
        invariant forall j :: 0 <= j < cur && names[j].svr == null ==> names[j].svrName.GetOr("") in unreached
        invariant |added| <= cur && (!error ==> |added| == cur)
        invariant error <==> exists j :: 0 <= j < cur && names[j].svr == null
        invariant forall j :: 0 <= j < cur && names[j].svr != null ==>
                    names[j].svr in added && names[j].svr.name == names[j].svrName.GetOr("")
        invariant forall j :: cur <= j < |names| ==> names[j].svr == old(names[j].svr)
        decreases |names| - cur
      {
        var done := ConnectOne(names[cur]);
        if done {
          InFront(names[cur].svr, added, kept);
          added := [names[cur].svr] + added;
        } else {
          error := true;
        }
        i, cur := i - 1, cur + 1;
      }
    }

    /** connect_servers: the connections in use are kept, and those made for the names come in front of them. */
    method ConnectServers(names: seq<ObjName>, numservers: int)
      returns (error: bool, ghost added: seq<Server>, ghost kept: seq<Server>)
      requires Counted() && NoDup(names) && Names(names) <= live
      requires forall o :: o in names[..Considered(|names|, numservers)] ==> o.svr == null
      modifies this`servers, this`nservers, this`pool, this`unreached, this`full, Idle()`connect, Names(names)`svr
      ensures Counted() && kept == old(Referenced()) && servers == added + kept && fresh(added) && Onward()
      ensures |kept| >= maxConnections ==> error && added == [] && forall o :: o in names ==> o.svr == old(o.svr)
      ensures |kept| < maxConnections ==>
                forall i :: 0 <= i < |names| ==>
                  if i < Considered(|names|, numservers)
                  then if names[i].svr == null then names[i].svrName.GetOr("") in unreached
                       else names[i].svr in added && names[i].svr.name == names[i].svrName.GetOr("")
                  else names[i].svr == old(names[i].svr)
      ensures |kept| < maxConnections ==>
                (error <==> exists i :: 0 <= i < Considered(|names|, numservers) && names[i].svr == null)
      ensures |added| <= Considered(|names|, numservers) && (!error ==> |added| == Considered(|names|, numservers))
      ensures full == (old(full) || |kept| >= maxConnections)
    {
      hide Among, Referenced, InUse;
      CloseNonRefServers();
      added, kept := [], servers;
      assert nservers == |servers|;
      hide Counted, Excused;
      if nservers < maxConnections {
        error, added := ConnectNames(names, numservers, kept);
      } else {
        error, full := true, true;
        assert added + kept == kept;
      }
    }

    /** There is a connection to the server of that name. */
    ghost predicate Connected(name: Option<string>)
      reads this`servers
    {
      name.Some? && exists s :: s in servers && s.name == name.value
    }

    /** find_server */
    method FindServer(name: Option<string>) returns (svr: Server?)
      ensures svr != null <==> Connected(name)
      ensures svr != null ==> svr in servers && name == Some(svr.name)
    {
      svr := null;
      if name.Some? {
        var i := 0;
        while i < |servers| && servers[i].name != name.value
          invariant i <= |servers| && forall j :: 0 <= j < i ==> servers[j].name != name.value
        {
          i := i + 1;
        }
        if i < |servers| {
          svr := servers[i];
        }
      }
    }

    // ----- names -----

    /** A new name that refers to nothing is counted from now on. */
    ghost method Adopt(o: ObjName)
      requires Counted() && o !in live && o.svr == null
      modifies this`live
      ensures Counted() && live == old(live) + {o}
    {
      live := live + {o};
      assert forall t :: t in servers ==> Pointing(t) == old(Pointing(t));
    }

    method Rename(o: ObjName, objName: Option<string>, svrName: Option<string>)
      requires Counted() && o in live
      modifies o`objName, o`svrName
      ensures Counted() && o.objName == objName && o.svrName == svrName
    {
      o.objName, o.svrName := objName, svrName;
      assert forall t :: t in servers ==> Pointing(t) == old(Pointing(t));
    }

    /** One name of commalist2objname, behind the parsing. */
    method MakeName(objName: Option<string>, svrName: Option<string>) returns (o: ObjName)
      requires Valid()
      modifies this`live, pool`ref
      ensures Valid() && fresh(o) && live == old(live) + {o} && o.objName == objName && o.svrName == svrName
      ensures (o.svr != null <==> Connected(svrName)) && (o.svr != null ==> svrName == Some(o.svr.name))
    {
      o := new ObjName(objName, svrName);
      assert Counted();
      Adopt(o);
      var svr := FindServer(svrName);
      if svr != null {
        Point(o, svr);
      }
    }

    /** The names stand for the first of the entries, and refer to the servers of those names if there are
        connections. */
    ghost predicate Named(objs: seq<ObjName>, entries: seq<Entry>)
      reads this`servers, Names(objs)`objName, Names(objs)`svrName, Names(objs)`svr
    {
      |objs| <= |entries| &&
      forall i :: 0 <= i < |objs| ==>
        objs[i].objName == entries[i].0 && objs[i].svrName == entries[i].1 &&
        (objs[i].svr != null <==> Connected(entries[i].1)) &&
        (objs[i].svr != null ==> entries[i].1 == Some(objs[i].svr.name))
    }

    /** The turn of the loop of commalist2objname. */
    method AddName(objs: seq<ObjName>, entries: seq<Entry>) returns (o: ObjName)
      requires Valid() && Own(objs) && Named(objs, entries) && |objs| < |entries|
      modifies this`live, pool`ref
      ensures Valid() && fresh(o) && Own(objs + [o]) && live == old(live) + {o}
      ensures Names(objs + [o]) == Names(objs) + {o} && Named(objs + [o], entries)
    {
      assert temp in live && Names(objs) <= live;
      assert forall i :: 0 <= i < |objs| ==> objs[i] in Names(objs);
      hide Valid, Connected, Lists.All, Excused;
      o := MakeName(entries[|objs|].0, entries[|objs|].1);
      assert Names(objs + [o]) == Names(objs) + {o};
    }

    /** commalist2objname, behind the parsing. */
    method CommaList(entries: seq<Entry>) returns (objs: seq<ObjName>)
      requires Valid()
      modifies this`live, pool`ref
      ensures Valid() && Own(objs) && |objs| == |entries| && live == old(live) + Names(objs)
      ensures Names(objs) !! old(live) && fresh(Names(objs))
      ensures Named(objs, entries)
    {
      objs := [];
      assert Own(objs) && Names(objs) == {} && Named(objs, entries);
      hide Valid, Named, Own, NoDup, Lists.All, Names, Excused;
      while |objs| < |entries|
        invariant |objs| <= |entries| && Valid() && Own(objs) && Named(objs, entries)
        invariant live == old(live) + Names(objs) && fresh(Names(objs))
      {
        var o := AddName(objs, entries);
        objs := objs + [o];
      }
    }

    /** temp_objname */
    method TempObjName(svrName: Option<string>, svr: Server?)
      requires Counted() && temp in live && (svr != null ==> svr in servers)
      modifies temp, pool`ref
      ensures Counted() && temp.svr == svr && temp.svrName == svrName
    {
      if temp.svr != null {
        Unpoint(temp);
      }
      Rename(temp, None, svrName);
      if svr != null {
        Point(temp, svr);
      }
    }

    // ----- set active -----

    /** connect_servers for one name. */
    method ConnectName(o: ObjName) returns (error: bool)
      requires Counted() && o in live && o.svr == null
      modifies this`servers, this`nservers, this`pool, this`unreached, this`full, pool`ref, pool`connect, o`svr
      ensures Counted() && Onward() && (nservers <= maxConnections || nservers <= old(nservers))
      ensures error <==> o.svr == null
      ensures error ==> full || o.svrName.GetOr("") in unreached
      ensures o.svr != null ==> o.svr.name == o.svrName.GetOr("")
    {
      ghost var added, kept;
      assert |Referenced()| <= nservers;
      error, added, kept := ConnectServers([o], 1);
    }

    /** Finds or makes the connection to the server. */
    method ResolveServer(o: ObjName) returns (error: bool)
      requires Counted() && o in live && o.svr == null
      modifies this`servers, this`nservers, this`pool, this`unreached, this`full, pool`ref, pool`connect, o`svr
      ensures Counted() && Onward() && (nservers <= maxConnections || nservers <= old(nservers))
      ensures error <==> o.svr == null
      ensures error ==> full || o.svrName.GetOr("") in unreached
      ensures o.svr != null ==>
                if old(Connected(o.objName)) then o.objName == Some(o.svr.name) else o.svr.name == o.svrName.GetOr("")
    {
      var svr := FindServer(o.objName);
      if svr == null {
        error := ConnectName(o);
      } else {
        Point(o, svr);
        error := false;
      }
    }

    /** A name that referred to a server still does. Another one has come to refer to the server that is its object or
        to the one that it names, if to any. */
    static predicate Placed(before: Server?, o: ObjName)
      reads o
    {
      if before != null then o.svr == before
      else o.svr != null ==> o.objName == Some(o.svr.name) || o.svr.name == o.svrName.GetOr("")
    }

    /** Finds or makes the connection to each server in the list. */
    method ResolveServers(names: seq<ObjName>) returns (error: bool)
      requires Counted() && NoDup(names) && Names(names) <= live
      modifies this`servers, this`nservers, this`pool, this`unreached, this`full
      modifies pool`ref, pool`connect, Names(names)`svr
      ensures Counted() && Onward() && (nservers <= maxConnections || nservers <= old(nservers))
      ensures error <==> exists i :: 0 <= i < |names| && names[i].svr == null
      ensures error ==> exists i ::
                0 <= i < |names| && names[i].svr == null && (full || names[i].svrName.GetOr("") in unreached)
      ensures forall i :: 0 <= i < |names| ==> Placed(old(names[i].svr), names[i])
    {
      hide Counted, Excused;
      error := false;
      var cur := 0;
      while cur < |names| && !error
        invariant cur <= |names| && Counted() && Onward()
        invariant nservers <= maxConnections || nservers <= old(nservers)
        invariant forall i :: 0 <= i < |names| ==> Placed(old(names[i].svr), names[i])
        invariant forall i :: cur <= i < |names| ==> names[i].svr == old(names[i].svr)
        invariant error ==> full || (cur > 0 && names[cur - 1].svrName.GetOr("") in unreached)
        invariant if error then cur > 0 && names[cur - 1].svr == null
                  else forall i :: 0 <= i < cur ==> names[i].svr != null
      {
        if names[cur].svr == null {
          error := ResolveServer(names[cur]);
        }
        cur := cur + 1;
      }
    }

    /** is_valid_object asks the server. */
    method IsValidObject(objName: Option<string>, svr: Server) returns (valid: bool)
      modifies this`unknown
      ensures unknown == old(unknown) + if valid then {} else {(objName, svr)}
    {
      valid := *;
      if !valid {
        unknown := unknown + {(objName, svr)};
      }
    }

    /** There is no connection for the object, or its server does not know it. */
    ghost predicate Wrong(o: ObjName)
      reads o, this`full, this`unreached, this`unknown
    {
      if o.svr == null then full || o.svrName.GetOr("") in unreached else (o.objName, o.svr) in unknown
    }

    /** Makes the connection of each name that asks for a server, and looks for the object there. */
    method ResolveObjects(names: seq<ObjName>) returns (error: bool)
      requires Counted() && NoDup(names) && Names(names) <= live
      modifies this`servers, this`nservers, this`pool, this`unreached, this`full, this`unknown
      modifies pool`ref, pool`connect, Names(names)`svr
      ensures Counted() && Onward() && (nservers <= maxConnections || nservers <= old(nservers))
      ensures !error ==> forall i :: 0 <= i < |names| && names[i].svrName.Some? ==> names[i].svr != null
      ensures forall i :: 0 <= i < |names| ==> Placed(old(names[i].svr), names[i])
      ensures error ==> exists i :: 0 <= i < |names| && Wrong(names[i])
    {
      hide Counted, Excused;
      error := false;
      var cur := 0;
      while cur < |names| && !error
        invariant cur <= |names| && Counted() && Onward()
        invariant nservers <= maxConnections || nservers <= old(nservers)
        invariant error ==> cur > 0 && Wrong(names[cur - 1])
        invariant !error ==> forall i :: 0 <= i < cur && names[i].svrName.Some? ==> names[i].svr != null
        invariant forall i :: 0 <= i < |names| ==> Placed(old(names[i].svr), names[i])
        invariant forall i :: cur <= i < |names| ==> names[i].svr == old(names[i].svr)
      {
        if names[cur].svrName.Some? && names[cur].svr == null {
          error := ConnectName(names[cur]);
        }
        if names[cur].svr != null {
          var valid := IsValidObject(names[cur].objName, names[cur].svr);
          if !valid {
            error := true;
          }
        }
        cur := cur + 1;
      }
    }

    /** Puts names in the place of an active list, whose names are freed. */
    method Activate(kind: Kind, names: seq<ObjName>)
      requires Valid() && Own(names) && !kind.OtherKind?
      modifies this`live, this`activeServers, this`activeScheds, this`activeQueues, this`activeNodes
      modifies Names(Active().Get(kind)), pool`ref
      ensures Valid() && Active() == old(Active()).Put(kind, names)
      ensures live == old(live) - Names(old(Active()).Get(kind))
    {
      PutKeeps(Active(), kind, names);
      hide Counted, Lists.Separate, Lists.All, Excused;
      FreeObjNameList(Active().Get(kind));
      match kind
      case Servers => activeServers := names;
      case Scheds => activeScheds := names;
      case Queues => activeQueues := names;
      case Nodes => activeNodes := names;
    }

    method SetActiveServers(kind: Kind, names: seq<ObjName>) returns (error: bool)
      requires Valid() && Own(names) && (kind.Servers? || kind.Scheds?)
      modifies this, pool`ref, pool`connect, Names(names), Names(Active().Get(kind))
      ensures Valid() && Onward() && (nservers <= maxConnections || nservers <= old(nservers))
      ensures log == old(log)
      ensures Active() == if error then old(Active()) else old(Active()).Put(kind, names)
      ensures live == old(live) - Names(if error then names else old(Active()).Get(kind))
      ensures !error ==> forall o :: o in names ==>
                o.svr != null && o.objName == old(o.objName) && o.svrName == old(o.svrName)
      ensures !error ==> forall o :: o in names ==> Placed(old(o.svr), o)
      ensures error ==> exists i ::
                0 <= i < |names| && old(names[i].svr) == null && (full || old(names[i].svrName).GetOr("") in unreached)
      ensures error ==> forall o :: o in activeServers ==> TargetOf(o) == old(TargetOf(o))
    {
      assert forall o :: o in activeServers ==> o !in Names(names);
      hide Counted, Excused;
      error := ResolveServers(names);
      if !error {
        Activate(kind, names);
      } else {
        FreeObjNameList(names);
      }
    }

    method SetActiveObjects(kind: Kind, names: seq<ObjName>) returns (error: bool)
      requires Valid() && Own(names) && (kind.Queues? || kind.Nodes?)
      modifies this, pool`ref, pool`connect, Names(names), Names(Active().Get(kind))
      ensures Valid() && Onward() && (nservers <= maxConnections || nservers <= old(nservers))
      ensures log == old(log)
      ensures Active() == if error then old(Active()) else old(Active()).Put(kind, names)
      ensures live == old(live) - Names(if error then [] else old(Active()).Get(kind))
      ensures !error ==> forall o :: o in names ==> o.objName == old(o.objName) && o.svrName == old(o.svrName)
      ensures !error ==> forall o :: o in names ==> Placed(old(o.svr), o)
      ensures error ==> exists i :: 0 <= i < |names| && Wrong(names[i])
    {
      hide Counted, Excused;
      error := ResolveObjects(names);
      if !error {
        Activate(kind, names);
      }
    }

    /** set_active. A list of queues or nodes that turns out wrong is not freed. */
    method SetActive(kind: Kind, names: seq<ObjName>) returns (error: bool)
      requires Valid() && Own(names)
      modifies this, pool`ref, pool`connect, Names(names), Names(Active().Get(kind))
      ensures Valid() && Onward() && (nservers <= maxConnections || nservers <= old(nservers))
      ensures log == old(log)
      ensures Active() == Next(old(Active()), kind, names, error)
      ensures live == old(live) - Names(Gone(old(Active()), kind, names, error))
      ensures error ==> names != []
      ensures !error ==> forall o :: o in names ==> o.objName == old(o.objName) && o.svrName == old(o.svrName)
      ensures !error ==> forall o :: o in names ==> Placed(old(o.svr), o)
      ensures !error && (kind.Servers? || kind.Scheds?) ==> forall o :: o in names ==> o.svr != null
      ensures error && (kind.Queues? || kind.Nodes?) ==> exists i :: 0 <= i < |names| && Wrong(names[i])
      ensures kind.OtherKind? && names != [] ==> error
      ensures error && (kind.Servers? || kind.Scheds?) ==> exists i ::
                0 <= i < |names| && old(names[i].svr) == null && (full || old(names[i].svrName).GetOr("") in unreached)
      ensures kind.Servers? && (error || names == []) ==>
                forall o :: o in activeServers ==> TargetOf(o) == old(TargetOf(o))
    {
      hide Valid, Excused;
      error := false;
      if names != [] {
        match kind
        case Servers | Scheds =>
          error := SetActiveServers(kind, names);
        case Queues | Nodes =>
          error := SetActiveObjects(kind, names);
        case OtherKind =>
          error := true;
      }
    }

    // ----- the server loop of execute -----

    /** The names that no list holds and nobody will free. */
    ghost function Leaked(): set<ObjName>
      reads this`live, this`activeServers, this`activeScheds, this`activeQueues, this`activeNodes
    {
      live - {temp} - Active().All()
    }

    lemma {:induction false} LeakedAreOpen(leak: ObjName?)
      requires Valid() && (leak != null ==> leak in Leaked())
      ensures leak != null && leak.svr != null ==> leak.svr in servers
    {
    }

    function TargetOf(o: ObjName): Target
      reads o`svr, o`svrName
    {
      Target(o.svr, o.svrName.GetOr(""))
    }

    /** The names refer to what they did in the snapshot, or have been connected since. */
    ghost predicate Since(was: map<ObjName, Target>)
      reads this`live, live`svr, live`svrName
    {
      was.Keys == live && forall o :: o in live && o != temp ==> Later(was[o], TargetOf(o))
    }

    ghost function Now(): map<ObjName, Target>
      reads this`live, live
    {
      map o | o in live :: TargetOf(o)
    }

    /** Any request about an object to the server, which has to have an open connection, and what the answer is. */
    method Ask(sp: Server, ghost own: bool, about: Option<string>) returns (failed: bool, lost: bool, kept: bool)
      requires sp in servers && sp.connect > 0
      modifies this`log
      ensures log == old(log) + [Turn(own, about, if failed then Refused(sp, lost) else Answered(sp, kept))]
      ensures old(Excused()) ==> Excused()
    {
      failed, lost, kept := *, *, *;
      log := log + [Turn(own, about, if failed then Refused(sp, lost) else Answered(sp, kept))];
    }

    /** A turn that ends without asking. */
    ghost method PassOver(turn: Turn)
      requires turn.result.NoConnection? ==> full || turn.result.name in unreached
      modifies this`log
      ensures log == old(log) + [turn] && (old(Excused()) ==> Excused())
    {
      log := log + [turn];
    }

    lemma {:induction false} OpenServer(o: ObjName)
      requires Counted() && o in live
      ensures o.svr != null ==> o.svr in servers && o.svr.connect > 0
    {
    }

    /** One turn at a server with a connection, where the static name referred to before. */
    method AskConnected(sname: ObjName, pname: ObjName, how: Setting, k: nat, ghost to: Target, ghost before: Server?)
      returns (error: bool, code: nat, ghost turn: Turn)
      requires Counted() && {sname, pname, temp} <= live && pname != temp && Later(to, TargetOf(sname))
      requires sname.svr != null && (sname != temp ==> before == temp.svr)
      modifies this`log, pool`ref, temp
      ensures Counted() && (old(Excused()) ==> Excused()) && log == old(log) + [turn]
      ensures Went([turn], [Wish(sname == temp, pname.objName, to)], how, k, error, code, before, temp.svr)
    {
      hide Counted, Went, Static, Excused;
      ghost var w := Wish(sname == temp, pname.objName, to);
      error, code := false, 0;
      var sp := sname.svr;
      OpenServer(sname);
      if how.skips(k) {
        turn := Turn(sname == temp, pname.objName, Skipped(sp));
        error := true;
        PassOver(turn);
        WentOnce(turn, w, how, k, 0, before, temp.svr);
        return;
      }
      var perr, lost, kept := Ask(sp, sname == temp, pname.objName);
      turn := Turn(sname == temp, pname.objName, if perr then Refused(sp, lost) else Answered(sp, kept));
      if perr {
        error := true;
        if lost {
          code := 1;
          WentOnce(turn, w, how, k, code, before, temp.svr);
          return;
        }
        if how.aopt {
          code := 2;
          WentOnce(turn, w, how, k, code, before, temp.svr);
          return;
        }
      } else if !kept {
        error := true;
      }
      TempObjName(None, null);
      WentOnce(turn, w, how, k, 0, before, temp.svr);
    }

    /** One turn of the inner loop of execute, number k of the command. A code other than 0 means that the command is
        given up: qmgr ends with that status. */
    method AskServer(sname: ObjName, pname: ObjName, how: Setting, k: nat, ghost to: Target)
      returns (error: bool, code: nat, ghost turn: Turn)
      requires Counted() && {sname, pname, temp} <= live && pname != temp && Later(to, TargetOf(sname))
      modifies this`servers, this`nservers, this`pool, this`unreached, this`full
      modifies this`log, pool`ref, pool`connect, sname`svr, temp
      ensures Counted() && Onward() && (nservers <= maxConnections || nservers <= old(nservers))
      ensures log == old(log) + [turn]
      ensures Went([turn], [Wish(sname == temp, pname.objName, to)], how, k, error, code, old(temp.svr), temp.svr)
      ensures sname != temp ==> Later(to, TargetOf(sname))
    {
      hide Counted, Went, Static, Excused;
      ghost var before := temp.svr;
      if sname.svr == null {
        var cerror := ConnectName(sname);
        if cerror {
          error, code := true, 0;
          turn := Turn(sname == temp, pname.objName, NoConnection(to.name));
          PassOver(turn);
          WentOnce(turn, Wish(sname == temp, pname.objName, to), how, k, 0, before, temp.svr);
          return;
        }
      }
      error, code, turn := AskConnected(sname, pname, how, k, to, before);
    }

    /** The same for an active server, which keeps everything in order. */
    method AskActiveServer(sname: ObjName, pname: ObjName, how: Setting, k: nat, ghost was: map<ObjName, Target>)
      returns (error: bool, code: nat, ghost turn: Turn)
      requires Valid() && sname in activeServers && sname in was && pname in live && pname != temp && Since(was)
      modifies this`servers, this`nservers, this`pool, this`unreached, this`full
      modifies this`log, pool`ref, pool`connect, sname`svr, temp
      ensures log == old(log) + [turn]
      ensures Valid() && Onward() && (nservers <= maxConnections || nservers <= old(nservers)) && Since(was)
      ensures Went([turn], [Wish(false, pname.objName, was[sname])], how, k, error, code, old(temp.svr), temp.svr)
    {
      error, code, turn := AskServer(sname, pname, how, k, was[sname]);
    }

    /** The inner loop of execute over the active servers; k turns have gone before. */
    method AskActive(pname: ObjName, how: Setting, k: nat, ghost was: map<ObjName, Target>, ghost active: seq<Target>)
      returns (error: bool, code: nat, n: nat, ghost turns: seq<Turn>)
      requires Valid() && pname in live && pname != temp && Since(was)
      requires |active| == |activeServers|
      requires forall i :: 0 <= i < |active| ==> activeServers[i] in was && active[i] == was[activeServers[i]]
      modifies this`servers, this`nservers, this`pool, this`unreached, this`full
      modifies this`log, pool`ref, pool`connect, Names(activeServers)`svr, temp
      ensures Valid() && Onward() && (nservers <= maxConnections || nservers <= old(nservers)) && Since(was)
      ensures log == old(log) + turns
      ensures Went(turns, Each(pname.objName, active), how, k, error, code, old(temp.svr), temp.svr)
      ensures n == |turns|
    {
      hide Valid, Since, Went, Each, Excused;
      error, code, turns, n := false, 0, [], 0;
      WentNowhere(how, k, temp.svr);
      EachStep(pname.objName, active, 0);
      while n < |activeServers|
        invariant n <= |activeServers| && |turns| == n && Valid() && Onward() && Since(was) && code == 0
        invariant nservers <= maxConnections || nservers <= old(nservers)
        invariant Went(turns, Each(pname.objName, active[..n]), how, k, error, 0, old(temp.svr), temp.svr)
        invariant log == old(log) + turns
      {
        ghost var between, turn := temp.svr, Turn(false, None, NoConnection(""));
        var failed;
        failed, code, turn := AskActiveServer(activeServers[n], pname, how, k + n, was);
        EachStep(pname.objName, active, n);
        WentOn(turns, Each(pname.objName, active[..n]), how, k, error, old(temp.svr), between,
               [turn], [Wish(false, pname.objName, active[n])], failed, code, temp.svr);
        turns, n, error := turns + [turn], n + 1, error || failed;
        if code != 0 {
          EachRest(pname.objName, active, n);
          WentShort(turns, Each(pname.objName, active[..n]), Each(pname.objName, active)[n..], how, k, error, code,
                    old(temp.svr), temp.svr);
          return;
        }
      }
      assert active[..n] == active;
    }

    /** The turn for an object that names its server, which the static name comes to stand for. */
    method AskOwn(pname: ObjName, how: Setting, k: nat, ghost was: map<ObjName, Target>)
      returns (error: bool, code: nat, ghost turn: Turn)
      requires Valid() && pname in live && pname != temp && Since(was)
      modifies this`servers, this`nservers, this`pool, this`unreached, this`full, this`log, pool`ref, pool`connect, temp
      ensures log == old(log) + [turn]
      ensures Valid() && Onward() && (nservers <= maxConnections || nservers <= old(nservers)) && Since(was)
      ensures pname in was
      ensures Went([turn], [Wish(true, pname.objName, was[pname])], how, k, error, code, old(temp.svr), temp.svr)
    {
      TempObjName(pname.svrName, pname.svr);
      error, code, turn := AskServer(temp, pname, how, k, was[pname]);
    }

    function PlanOf(o: ObjName): Plan
      reads o`objName, o`svrName, o`svr
    {
      Plan(o.objName, o.svrName, TargetOf(o))
    }

    /** The body of the outer loop of execute; k turns have gone before. */
    method AskAbout(pname: ObjName, how: Setting, k: nat, ghost was: map<ObjName, Target>, ghost active: seq<Target>,
                    ghost plan: Plan)
      returns (error: bool, code: nat, n: nat, ghost turns: seq<Turn>)
      requires Valid() && pname in live && pname != temp && Since(was)
      requires |active| == |activeServers|
      requires forall i :: 0 <= i < |active| ==> activeServers[i] in was && active[i] == was[activeServers[i]]
      requires pname in was && plan == Plan(pname.objName, pname.svrName, was[pname])
      modifies this`servers, this`nservers, this`pool, this`unreached, this`full
      modifies this`log, pool`ref, pool`connect, Names(activeServers)`svr, temp
      ensures Valid() && Onward() && (nservers <= maxConnections || nservers <= old(nservers)) && Since(was)
      ensures log == old(log) + turns
      ensures Went(turns, About(plan, active), how, k, error, code, old(temp.svr), temp.svr) && n == |turns|
    {
      hide Valid, Since, Went, Each, Excused;
      if pname.svrName.Some? {
        ghost var turn;
        error, code, turn := AskOwn(pname, how, k, was);
        n, turns := 1, [turn];
      } else {
        error, code, n, turns := AskActive(pname, how, k, was, active);
      }
    }

    /** What is to be asked about, and where. */
    ghost function Plans(list: seq<ObjName>): (ps: seq<Plan>)
      reads Names(list)`objName, Names(list)`svrName, Names(list)`svr
      ensures |ps| == |list| && forall i :: 0 <= i < |list| ==> ps[i] == PlanOf(list[i])
    {
      if list == [] then [] else Plans(list[..|list| - 1]) + [PlanOf(list[|list| - 1])]
    }

    ghost function Targets(list: seq<ObjName>): (ts: seq<Target>)
      reads Names(list)`svrName, Names(list)`svr
      ensures |ts| == |list| && forall i :: 0 <= i < |list| ==> ts[i] == TargetOf(list[i])
    {
      if list == [] then [] else Targets(list[..|list| - 1]) + [TargetOf(list[|list| - 1])]
    }

    /** The loops of execute, in which the plans and the active servers stay what they were at the start. */
    method AskPlans(pnames: seq<ObjName>, how: Setting, ghost was: map<ObjName, Target>, ghost plans: seq<Plan>,
                    ghost active: seq<Target>)
      returns (error: bool, code: nat, ghost turns: seq<Turn>)
      requires Valid() && Since(was) && |active| == |activeServers| && |plans| == |pnames|
      requires forall i :: 0 <= i < |active| ==> activeServers[i] in was && active[i] == was[activeServers[i]]
      requires forall i :: 0 <= i < |pnames| ==>
                 pnames[i] in live && pnames[i] != temp && pnames[i] in was &&
                 plans[i] == Plan(pnames[i].objName, pnames[i].svrName, was[pnames[i]])
      modifies this`servers, this`nservers, this`pool, this`unreached, this`full
      modifies this`log, pool`ref, pool`connect, Names(activeServers)`svr, temp
      ensures Valid() && Onward() && (nservers <= maxConnections || nservers <= old(nservers))
      ensures log == old(log) + turns
      ensures Went(turns, Wishes(plans, active), how, 0, error, code, old(temp.svr), temp.svr)
      ensures Since(was)
    {
      hide Valid, Since, Went, Wishes, About, Each, Excused;
      error, code, turns := false, 0, [];
      WentNowhere(how, 0, temp.svr);
      WishesStep(plans, 0, active);
      var i, k := 0, 0;
      while i < |pnames|
        invariant i <= |pnames| && |turns| == k && Valid() && Onward() && Since(was) && code == 0
        invariant nservers <= maxConnections || nservers <= old(nservers)
        invariant Went(turns, Wishes(plans[..i], active), how, 0, error, 0, old(temp.svr), temp.svr)
        invariant log == old(log) + turns
      {
        ghost var between, more := temp.svr, [];
        var failed, n;
        failed, code, n, more := AskAbout(pnames[i], how, k, was, active, plans[i]);
        WishesStep(plans, i, active);
        WentOn(turns, Wishes(plans[..i], active), how, 0, error, old(temp.svr), between,
               more, About(plans[i], active), failed, code, temp.svr);
        turns, i, k, error := turns + more, i + 1, k + n, error || failed;
        if code != 0 {
          WishesRest(plans, i, active);
          ghost var rest := Wishes(plans, active)[|Wishes(plans[..i], active)|..];
          WentShort(turns, Wishes(plans[..i], active), rest, how, 0, error, code, old(temp.svr), temp.svr);
          assert Wishes(plans[..i], active) + rest == Wishes(plans, active);
          return;
        }
      }
      assert plans[..i] == plans;
    }

    lemma {:induction false} HostsSince(was: map<ObjName, Target>, active: seq<Target>)
      requires Valid() && Since(was) && |active| == |activeServers|
      requires forall i :: 0 <= i < |active| ==> activeServers[i] in was && active[i] == was[activeServers[i]]
      ensures Hosted(active, Targets(activeServers))
    {
      assert forall i :: 0 <= i < |activeServers| ==> activeServers[i] in Names(activeServers);
    }

    /** The loops of execute: every object is asked about at the server that it names, or at all active ones. */
    method AskEach(pnames: seq<ObjName>, how: Setting) returns (error: bool, code: nat, ghost turns: seq<Turn>)
      requires Valid() && Names(pnames) <= live - {temp}
      modifies this`servers, this`nservers, this`pool, this`unreached, this`full
      modifies this`log, pool`ref, pool`connect, Names(activeServers)`svr, temp
      ensures Valid() && Onward() && (nservers <= maxConnections || nservers <= old(nservers))
      ensures log == old(log) + turns
      ensures Went(turns, Wishes(old(Plans(pnames)), old(Targets(activeServers))), how, 0, error, code,
                   old(temp.svr), temp.svr)
      ensures Hosted(old(Targets(activeServers)), Targets(activeServers))
    {
      hide Went, Wishes, About, Plans, Targets, Counted, NoDup, Excused;
      ghost var was, plans, active := Now(), Plans(pnames), Targets(activeServers);
      forall i | 0 <= i < |active|
        ensures activeServers[i] in was && active[i] == was[activeServers[i]]
      {
        assert activeServers[i] in Names(activeServers);
      }
      forall i | 0 <= i < |pnames|
        ensures pnames[i] in live && pnames[i] != temp && pnames[i] in was
      {
        assert pnames[i] in Names(pnames);
      }
      error, code, turns := AskPlans(pnames, how, was, plans, active);
      HostsSince(was, active);
    }

    /** The operation set active, for names that nobody else holds. Wrong queues and nodes, and what cannot be active,
        are leaked. */
    method SetActiveLeaking(kind: Kind, names: seq<ObjName>, ghost leak: ObjName?)
      returns (error: bool)
      requires Valid() && Own(names) && (leak != null ==> leak in Leaked() && leak !in Names(names))
      modifies this, pool`ref, pool`connect, Names(names), Active().All()
      ensures Valid() && Onward() && (nservers <= maxConnections || nservers <= old(nservers))
      ensures live <= old(live) && log == old(log)
      ensures Active() == Next(old(Active()), kind, names, error)
      ensures Leaked() == old(Leaked()) - Names(names) + if error && Leaks(kind) then Names(names) else {}
      ensures leak != null ==> leak.svr == old(leak.svr)
      ensures temp.svr == old(temp.svr)
      ensures !error ==> forall o :: o in names ==>
                o.objName == old(o.objName) && o.svrName == old(o.svrName) && Placed(old(o.svr), o)
      ensures !error && (kind.Servers? || kind.Scheds?) ==> forall o :: o in names ==> o.svr != null
      ensures error || !kind.Servers? || names == [] ==>
                forall o :: o in old(activeServers) ==> TargetOf(o) == old(TargetOf(o))
    {
      assert forall o :: o in activeServers ==> o !in Names(names);
      assert !kind.Servers? ==> forall o :: o in activeServers ==> o !in Names(Active().Get(kind));
      ghost var before, active := live - Names(names), Active();
      NamesOfKind(active, kind);
      assert Names([]) == {} && temp !in Names(names) + Names(active.Get(kind));
      assert before + Names(names) == live;
      assert active.Separate() && active.All() <= before - {temp} && temp in before && NoDup(names);
      assert Names(names) !! before;
      hide NoDup, Counted, Valid, Own, Names, Lists.All, Lists.Separate, Next, Gone, Leaks, Excused;
      error := SetActive(kind, names);
      LeakAfter(before, active, kind, names, error, temp);
    }

    /** Any other operation. A code other than 0 means that qmgr ends with it, the names not being freed. */
    method Request(kind: Kind, name: seq<ObjName>, how: Setting)
      returns (error: bool, code: nat, ghost turns: seq<Turn>)
      requires Valid() && Own(name)
      modifies this`servers, this`nservers, this`pool, this`unreached, this`full, this`live, this`log
      modifies pool`ref, pool`connect, Names(name), Names(activeServers)`svr, temp
      ensures Valid() && Onward() && (nservers <= maxConnections || nservers <= old(nservers))
      ensures live == old(live) - if code != 0 then {} else Names(name)
      ensures log == old(log) + turns
      ensures Went(turns, Wishes(old(Plans(if name != [] then name else Implied(kind))), old(Targets(activeServers))),
                   how, 0, error, code, old(temp.svr), temp.svr)
      ensures Hosted(old(Targets(activeServers)), Targets(activeServers))
    {
      var pname := name;
      if name == [] {
        pname := Implied(kind);
      }
      NamesOfKind(Active(), kind);
      NamesOfKind(Active(), Servers);
      hide Went, Wishes, Plans, Targets, Excused;
      error, code, turns := AskEach(pname, how);
      if code == 0 && name != [] {
        FreeObjNameList(name);
      }
    }

    /** What a request that is given up leaks, and what became of the static name otherwise. */
    method RequestLeaking(kind: Kind, name: seq<ObjName>, how: Setting, ghost leak: ObjName?, ghost plans: seq<Plan>,
                          ghost active: seq<Target>)
      returns (error: bool, code: nat, ghost turns: seq<Turn>)
      requires Valid() && Own(name) && (leak != null ==> leak in Leaked() && leak !in Names(name))
      requires plans == Plans(if name != [] then name else Implied(kind)) && active == Targets(activeServers)
      modifies this`servers, this`nservers, this`pool, this`unreached, this`full, this`live, this`log
      modifies pool`ref, pool`connect, Names(name), Names(activeServers)`svr, temp
      ensures Valid() && Onward() && (nservers <= maxConnections || nservers <= old(nservers))
      ensures live == old(live) - if code != 0 then {} else Names(name)
      ensures Leaked() == old(Leaked()) - Names(name) + if code != 0 then Names(name) else {}
      ensures leak != null ==> leak.svr == old(leak.svr)
      ensures Active() == old(Active()) && log == old(log) + turns
      ensures code == 0 && FilesUsable(how.skips) && old(temp.svr) == null ==> temp.svr == null
      ensures Hosted(active, Targets(activeServers))
      ensures Went(turns, Wishes(plans, active), how, 0, error, code, old(temp.svr), temp.svr)
    {
      ghost var before, held := live, Active().All();
      assert leak != null ==> leak !in Names(activeServers) && leak != temp;
      assert Names(name) <= before - {temp} - held;
      hide Wishes, Plans, Targets, Went, FilesUsable, Counted, Valid, Own, NoDup, Names, Lists.All, Hosted, Implied;
      hide Excused;
      error, code, turns := Request(kind, name, how);
      LeakRequested(before, Names(name), held, temp);
      if code == 0 && FilesUsable(how.skips) && old(temp.svr) == null {
        NothingSkipped(turns, Wishes(plans, active), how, error, temp.svr);
      }
    }

    /** The objects of a request that names none. */
    function Implied(kind: Kind): seq<ObjName>
      reads this`activeServers, this`activeQueues, this`activeNodes
    {
      match kind
      case Queues => activeQueues
      case Nodes => activeNodes
      case _ => activeServers
    }

    /** An import of a missing file into one hook of a connected server: qmgr goes on, and the static name still refers
        to the server. */
    method ImportOfMissingFile(h: ObjName, aopt: bool) returns (error: bool, code: nat)
      requires Valid() && Own([h]) && h.svrName.Some? && h.svr != null
      modifies this`servers, this`nservers, this`pool, this`unreached, this`full, this`live, this`log
      modifies pool`ref, pool`connect, h, Names(activeServers)`svr, temp
      ensures Valid() && code == 0 && error && temp.svr == old(h.svr) && old(h.svr) in servers
    {
      ghost var turns, plan, active := [], PlanOf(h), Targets(activeServers);
      assert Plans([h]) == [plan] by {
        assert [h][..0] == [];
      }
      hide Plans, Targets, Went, Excused;
      error, code, turns := Request(OtherKind, [h], Setting(aopt, k => true));
      OwnTurnSkipped(turns, plan, active, Setting(aopt, k => true), error, code, old(temp.svr), temp.svr);
    }

    /** commalist2objname, whose names nobody holds yet. */
    method Allocate(entries: seq<Entry>, ghost leak: ObjName?) returns (names: seq<ObjName>)
      requires Valid() && (leak != null ==> leak in Leaked())
      modifies this`live, pool`ref
      ensures Valid() && Own(names) && live == old(live) + Names(names) && Active() == old(Active())
      ensures Leaked() == old(Leaked()) + Names(names) && Names(names) !! old(Leaked())
      ensures fresh(Names(names)) && |Names(names)| == |entries|
      ensures Active().All() <= old(live) && Names(activeServers) <= old(live) && temp in old(live)
      ensures temp.svr == old(temp.svr) && |names| == |entries| && Named(names, entries)
    {
      assert Names(activeServers) <= Active().All() <= live - {temp} && temp in live;
      assert leak != null ==> leak in live;
      ghost var before, active := live, Active().All();
      hide Counted, Valid, Lists.All, Excused;
      names := CommaList(entries);
      assert NoDup(names);
      hide NoDup, Own, Names;
      CardOfNames(names);
      LeakGrown(before, Names(names), active, temp);
    }

    /** The names that were activated, or the old ones. */
    lemma {:induction false} Activated(c: Command, error: bool, was: Lists, names: seq<ObjName>, before: seq<Target>,
                                       hosts: map<ObjName, Server?>)
      requires c.activate && |names| == |c.entries| && Active() == Next(was, c.kind, names, error)
      requires forall i :: 0 <= i < |names| ==> names[i] in hosts
      requires !error ==>
                 forall i :: 0 <= i < |names| ==>
                   names[i].objName == c.entries[i].0 && names[i].svrName == c.entries[i].1 &&
                   Placed(hosts[names[i]], names[i]) &&
                   (hosts[names[i]] != null ==> c.entries[i].1 == Some(hosts[names[i]].name)) &&
                   (c.kind.Servers? ==> names[i].svr != null)
      requires |before| == |was.servers|
      requires error || !c.kind.Servers? || names == [] ==>
                 forall i :: 0 <= i < |was.servers| ==> TargetOf(was.servers[i]) == before[i]
      ensures HostStep(before, c, Outcome(error, 0), Targets(activeServers))
    {
      if c.kind.Servers? && !error && names != [] {
        assert activeServers == names;
      } else {
        assert activeServers == was.servers;
      }
    }

    /** set active for names that stand for the entries. */
    method ActivateNamed(c: Command, names: seq<ObjName>, ghost leak: ObjName?, ghost active: seq<Target>)
      returns (error: bool)
      requires Valid() && Own(names) && (leak != null ==> leak in Leaked() && leak !in Names(names))
      requires c.activate && |names| == |c.entries| && Named(names, c.entries) && active == Targets(activeServers)
      modifies this, pool`ref, pool`connect, Names(names), Active().All()
      ensures Valid() && Onward() && (nservers <= maxConnections || nservers <= old(nservers))
      ensures live <= old(live) && log == old(log)
      ensures Leaked() == old(Leaked()) - Names(names) + if error && Leaks(c.kind) then Names(names) else {}
      ensures leak != null ==> leak.svr == old(leak.svr)
      ensures temp.svr == old(temp.svr)
      ensures HostStep(active, c, Outcome(error, 0), Targets(activeServers))
    {
      ghost var was, hosts := Active(), map o | o in names :: o.svr;
      assert forall i :: 0 <= i < |names| ==> names[i] in names;
      forall i | 0 <= i < |active|
        ensures active[i] == TargetOf(was.servers[i]) && was.servers[i] in activeServers
      {
      }
      hide Counted, Valid, Own, Names, Leaked, Leaks, Next, NoDup, Lists.All, Lists.Get, Connected, HostStep, Placed;
      hide Excused;
      error := SetActiveLeaking(c.kind, names, leak);
      Activated(c, error, was, names, active, hosts);
    }

    /** execute for set active. */
    method ExecuteActive(c: Command, ghost leak: ObjName?, ghost active: seq<Target>) returns (error: bool)
      requires Valid() && c.activate && (leak != null ==> leak in Leaked()) && active == Targets(activeServers)
      modifies this, pool`ref, pool`connect, live
      ensures Valid() && Onward() && (nservers <= maxConnections || nservers <= old(nservers))
      ensures leak != null ==> leak.svr == old(leak.svr)
      ensures fresh(live - old(live)) && temp.svr == old(temp.svr) && (leak != null ==> leak in Leaked())
      ensures |Leaked()| == |old(Leaked())| + if error && Leaks(c.kind) then |c.entries| else 0
      ensures log == old(log) && HostStep(active, c, Outcome(error, 0), Targets(activeServers))
    {
      hide Counted, Valid, Own, Names, Leaked, Leaks, NoDup, Lists.All, Lists.Get, Named, HostStep, Plans, Targets;
      hide Excused;
      ghost var before := Leaked();
      var name := AllocateAside(c.kind, c.entries, leak, Plans(Implied(c.kind)), active);
      error := ActivateNamed(c, name, leak, active);
      assert Onward();
      LeakCount(before, Names(name), if error && Leaks(c.kind) then Names(name) else {}, Leaked());
    }

    lemma {:induction false} NamedPlanned(names: seq<ObjName>, entries: seq<Entry>)
      requires |names| == |entries| && Named(names, entries)
      ensures PlannedFor(Plans(names), entries)
    {
    }

    twostate lemma {:induction false} SamePlans(list: seq<ObjName>)
      requires forall o :: o in list ==> PlanOf(o) == old(PlanOf(o))
      ensures Plans(list) == old(Plans(list))
    {
      assert forall i :: 0 <= i < |list| ==> list[i] in list;
    }

    twostate lemma {:induction false} SameTargets(list: seq<ObjName>)
      requires forall o :: o in list ==> TargetOf(o) == old(TargetOf(o))
      ensures Targets(list) == old(Targets(list))
    {
      assert forall i :: 0 <= i < |list| ==> list[i] in list;
    }

    /** The same, with what was planned before. */
    method AllocateAside(kind: Kind, entries: seq<Entry>, ghost leak: ObjName?, ghost implied: seq<Plan>,
                         ghost active: seq<Target>)
      returns (names: seq<ObjName>)
      requires Valid() && (leak != null ==> leak in Leaked())
      requires implied == Plans(Implied(kind)) && active == Targets(activeServers)
      modifies this`live, pool`ref
      ensures Valid() && Own(names) && live == old(live) + Names(names) && Active() == old(Active())
      ensures Leaked() == old(Leaked()) + Names(names) && Names(names) !! old(Leaked())
      ensures fresh(Names(names)) && |Names(names)| == |entries|
      ensures Active().All() <= old(live) && Names(activeServers) <= old(live) && temp in old(live)
      ensures temp.svr == old(temp.svr) && Onward()
      ensures |names| == |entries| && Named(names, entries)
      ensures implied == Plans(Implied(kind)) && active == Targets(activeServers)
    {
      hide Valid, Own, Leaked, Named, Counted, NoDup, Names, Lists.All, Plans, Targets, Active, Excused;
      names := Allocate(entries, leak);
      SamePlans(Implied(kind));
      SameTargets(activeServers);
    }

    /** The request about names that stand for the entries. */
    method RequestNamed(kind: Kind, name: seq<ObjName>, ghost entries: seq<Entry>, how: Setting, ghost leak: ObjName?,
                        ghost implied: seq<Plan>, ghost active: seq<Target>)
      returns (error: bool, code: nat, ghost turns: seq<Turn>)
      requires Valid() && Own(name) && (leak != null ==> leak in Leaked() && leak !in Names(name))
      requires |name| == |entries| && Named(name, entries)
      requires implied == Plans(Implied(kind)) && active == Targets(activeServers)
      modifies this`servers, this`nservers, this`pool, this`unreached, this`full, this`live, this`log
      modifies pool`ref, pool`connect, Names(name), Names(activeServers)`svr, temp
      ensures Valid() && Onward() && (nservers <= maxConnections || nservers <= old(nservers))
      ensures live == old(live) - if code != 0 then {} else Names(name)
      ensures Leaked() == old(Leaked()) - Names(name) + if code != 0 then Names(name) else {}
      ensures leak != null ==> leak.svr == old(leak.svr)
      ensures Active() == old(Active()) && log == old(log) + turns
      ensures code == 0 && FilesUsable(how.skips) && old(temp.svr) == null ==> temp.svr == null
      ensures Hosted(active, Targets(activeServers))
      ensures Served(turns, entries, implied, active, how, Outcome(error, code), old(temp.svr), temp.svr)
    {
      ghost var plans, before := Plans(name), temp.svr;
      NamedPlanned(name, entries);
      hide *;
      error, code, turns := RequestLeaking(kind, name, how, leak, if name != [] then plans else implied, active);
      ServedBy(turns, entries, plans, implied, active, how, error, code, before, temp.svr);
    }

    /** execute for the other operations. */
    method ExecuteRequest(kind: Kind, entries: seq<Entry>, how: Setting, ghost leak: ObjName?, ghost implied: seq<Plan>,
                          ghost active: seq<Target>)
      returns (error: bool, code: nat, ghost turns: seq<Turn>)
      requires Valid() && (leak != null ==> leak in Leaked())
      requires implied == Plans(Implied(kind)) && active == Targets(activeServers)
      modifies this, pool`ref, pool`connect, live
      ensures Valid() && Onward() && (nservers <= maxConnections || nservers <= old(nservers))
      ensures leak != null ==> leak.svr == old(leak.svr)
      ensures fresh(live - old(live)) && Active() == old(Active()) && (leak != null ==> leak in Leaked())
      ensures code == 0 ==> live == old(live)
      ensures code == 0 && FilesUsable(how.skips) && old(temp.svr) == null ==> temp.svr == null
      ensures |Leaked()| == |old(Leaked())| + if code != 0 then |entries| else 0
      ensures log == old(log) + turns && Hosted(active, Targets(activeServers))
      ensures Served(turns, entries, implied, active, how, Outcome(error, code), old(temp.svr), temp.svr)
    {
      hide Counted, Valid, Own, Names, Leaked, Active, FilesUsable, NoDup, Lists.All, Excused;
      hide Plans, Targets, Named, Served, Hosted, Implied;
      ghost var before := Leaked();
      var name := AllocateAside(kind, entries, leak, implied, active);
      error, code, turns := RequestNamed(kind, name, entries, how, leak, implied, active);
      assert Onward();
      LeakCount(before, Names(name), if code != 0 then Names(name) else {}, Leaked());
    }

    /** Set active goes on to another command even when it fails. */
    method ActiveCommand(c: Command, aopt: bool, ghost leak: ObjName?, ghost implied: seq<Plan>,
                         ghost active: seq<Target>)
      returns (r: Outcome, ghost record: Record)
      requires Valid() && (leak != null ==> leak in Leaked()) && c.activate
      requires implied == Plans(Implied(c.kind)) && active == Targets(activeServers)
      modifies this, pool`ref, pool`connect, live
      ensures Valid() && Onward() && (nservers <= maxConnections || nservers <= old(nservers))
      ensures leak != null ==> leak.svr == old(leak.svr)
      ensures fresh(live - old(live)) && (leak != null ==> leak in Leaked())
      ensures r.code == 0 && FilesUsable(c.skips) && old(temp.svr) == null ==> temp.svr == null
      ensures |Leaked()| == |old(Leaked())| + Lost(c, r)
      ensures log == old(log) + record.turns && record.active == active
      ensures Recorded(c, aopt, r, record) && HostStep(active, c, r, Targets(activeServers))
    {
      ghost var before := temp.svr;
      ImpliedServers(c.kind);
      ghost var sofar := log;
      assert sofar + [] == sofar;
      hide *;
      var errflg := ExecuteActive(c, leak, active);
      r, record := Outcome(errflg, 0), Record([], implied, active, before, before);
      RecordIs(c, aopt, r, record);
    }

    /** Any other command. */
    method RequestCommand(c: Command, aopt: bool, ghost leak: ObjName?, ghost implied: seq<Plan>,
                          ghost active: seq<Target>)
      returns (r: Outcome, ghost record: Record)
      requires Valid() && (leak != null ==> leak in Leaked()) && !c.activate
      requires implied == Plans(Implied(c.kind)) && active == Targets(activeServers)
      modifies this, pool`ref, pool`connect, live
      ensures Valid() && Onward() && (nservers <= maxConnections || nservers <= old(nservers))
      ensures leak != null ==> leak.svr == old(leak.svr)
      ensures fresh(live - old(live)) && (leak != null ==> leak in Leaked())
      ensures r.code == 0 ==> live == old(live) && Active() == old(Active())
      ensures r.code == 0 && FilesUsable(c.skips) && old(temp.svr) == null ==> temp.svr == null
      ensures |Leaked()| == |old(Leaked())| + Lost(c, r)
      ensures log == old(log) + record.turns && record.active == active
      ensures Recorded(c, aopt, r, record) && HostStep(active, c, r, Targets(activeServers))
    {
      ghost var before := temp.svr;
      ImpliedServers(c.kind);
      hide Counted, Valid, Leaked, Active, FilesUsable, Plans, Targets, Implied, HostStep, Recorded, ToHosts, Lost;
      hide Excused;
      ghost var turns;
      var errflg, code;
      errflg, code, turns := ExecuteRequest(c.kind, c.entries, Setting(aopt, c.skips), leak, implied, active);
      r, record := Outcome(errflg, code), Record(turns, implied, active, before, temp.svr);
      RequestSteps(c, r, active, Targets(activeServers));
      RecordIs(c, aopt, r, record);
    }

    /** execute */
    method Execute(c: Command, aopt: bool, ghost leak: ObjName?, ghost implied: seq<Plan>, ghost active: seq<Target>)
      returns (r: Outcome, ghost record: Record)
      requires Valid() && (leak != null ==> leak in Leaked())
      requires implied == Plans(Implied(c.kind)) && active == Targets(activeServers)
      modifies this, pool`ref, pool`connect, live
      ensures Valid() && Onward() && (nservers <= maxConnections || nservers <= old(nservers))
      ensures leak != null ==> leak.svr == old(leak.svr)
      ensures fresh(live - old(live)) && (leak != null ==> leak in Leaked())
      ensures r.code == 0 && !c.activate ==> live == old(live) && Active() == old(Active())
      ensures r.code == 0 && FilesUsable(c.skips) && old(temp.svr) == null ==> temp.svr == null
      ensures |Leaked()| == |old(Leaked())| + Lost(c, r)
      ensures log == old(log) + record.turns && record.active == active
      ensures Recorded(c, aopt, r, record) && HostStep(active, c, r, Targets(activeServers))
    {
      hide *;
      if c.activate {
        r, record := ActiveCommand(c, aopt, leak, implied, active);
      } else {
        r, record := RequestCommand(c, aopt, leak, implied, active);
      }
    }

    /** A request without names that is not about queues or nodes is about the active servers. */
    lemma {:induction false} ImpliedServers(kind: Kind)
      ensures !kind.Queues? && !kind.Nodes? ==> ToHosts(Plans(Implied(kind)), Targets(activeServers))
    {
    }

    // ----- a whole session -----

    /** The start of qmgr: all servers of the command line are connected, even when they are too many. */
    method ConnectAll(entries: seq<Entry>) returns (error: bool, names: seq<ObjName>)
      requires Valid() && servers == [] && nservers < maxConnections
      modifies this, pool`ref, pool`connect, live
      ensures Valid() && Own(names) && Onward() && fresh(Names(names)) && temp.svr == null
      ensures !error ==> nservers == |entries| && forall i :: 0 <= i < |names| ==> names[i].svr != null
      ensures error ==> exists i :: 0 <= i < |entries| && entries[i].1.GetOr("") in unreached
      ensures Active() == old(Active()) && |names| == |entries|
      ensures forall i :: 0 <= i < |names| ==>
                names[i].objName == entries[i].0 && names[i].svrName == entries[i].1 &&
                (names[i].svr != null ==> names[i].svr.name == entries[i].1.GetOr(""))
    {
      names := CommaList(entries);
      assert Among(servers, InUse()) == [];
      ghost var added, kept;
      error, added, kept := ConnectServers(names, -1);
    }

    /** main up to the first prompt; the status is that of the process, 0 when it goes on. Making the servers active,
        which would end it with 4, does not fail once all of them are connected. */
    method Start(entries: seq<Entry>, aopt: bool) returns (status: int)
      requires Valid() && servers == [] && activeServers == [] && nservers < maxConnections
      modifies this, pool`ref, pool`connect, live
      ensures Valid() && Onward()
      ensures status in {0, 3} && (status == 0 ==> temp.svr == null && |activeServers| == |entries|)
      ensures status == 3 ==> entries == [] || exists i :: 0 <= i < |entries| && entries[i].1.GetOr("") in unreached
      ensures status == 0 ==> forall i :: 0 <= i < |entries| ==>
                activeServers[i].svr != null && activeServers[i].svr.name == entries[i].1.GetOr("")
    {
      var errflg, svrs := ConnectAll(entries);
      if nservers == 0 || errflg {
        return 3;
      }
      assert forall i :: 0 <= i < |svrs| ==> svrs[i] in svrs;
      hide Counted, Excused;
      errflg := SetActive(Servers, svrs);
      if errflg && aopt {
        return 4;
      }
      status := 0;
    }

    /** Every command was carried out as recorded, and found the active servers as the one before it had left them. */
    ghost predicate Told(commands: seq<Command>, aopt: bool, rs: seq<Outcome>, records: seq<Record>, first: seq<Target>)
      reads this`activeServers, Names(activeServers)`svrName, Names(activeServers)`svr
    {
      && |rs| == |records| <= |commands|
      && (forall i :: 0 <= i < |rs| ==> Recorded(commands[i], aopt, rs[i], records[i]))
      && (if records == [] then Targets(activeServers) == first else records[0].active == first)
      && (forall i :: 0 <= i < |rs| - 1 ==>
            HostStep(records[i].active, commands[i], rs[i], records[i + 1].active))
      && (records != [] ==>
            var n := |records| - 1;
            HostStep(records[n].active, commands[n], rs[n], Targets(activeServers)))
    }

    lemma {:induction false} ToldOn(commands: seq<Command>, aopt: bool, rs: seq<Outcome>, records: seq<Record>,
                                    first: seq<Target>, hosts: seq<Target>, r: Outcome, record: Record)
      requires |rs| == |records| < |commands|
      requires forall i :: 0 <= i < |rs| ==> Recorded(commands[i], aopt, rs[i], records[i])
      requires if records == [] then hosts == first else records[0].active == first
      requires forall i :: 0 <= i < |rs| - 1 ==>
                 HostStep(records[i].active, commands[i], rs[i], records[i + 1].active)
      requires records != [] ==> HostStep(records[|rs| - 1].active, commands[|rs| - 1], rs[|rs| - 1], hosts)
      requires Recorded(commands[|rs|], aopt, r, record) && record.active == hosts
      requires HostStep(record.active, commands[|rs|], r, Targets(activeServers))
      ensures Told(commands, aopt, rs + [r], records + [record], first)
    {
      hide Recorded, HostStep;
    }

    /** What has become of it behind the commands that came to rs. */
    ghost predicate Behind(past: Past, commands: seq<Command>, aopt: bool, rs: seq<Outcome>, records: seq<Record>,
                          leak: ObjName?)
      reads this`live, this`activeServers, this`activeScheds, this`activeQueues, this`activeNodes, this`nservers
      reads this`log, if leak == null then {} else {leak}, Names(activeServers)`svrName, Names(activeServers)`svr
    {
      && Told(commands, aopt, rs, records, past.targets) && log == past.log + AllTurns(records)
      && (nservers <= maxConnections || nservers <= past.nservers)
      && (leak != null ==> leak in Leaked() && leak.svr == past.leakSvr)
      && |Leaked()| == past.leaked + LostBy(commands, rs)
    }

    /** The next command. */
    method OneCommand(commands: seq<Command>, aopt: bool, ghost rs: seq<Outcome>, ghost records: seq<Record>,
                      ghost past: Past, ghost leak: ObjName?, at: nat)
      returns (r: Outcome, ghost record: Record)
      requires Valid() && at == |rs| < |commands| && Behind(past, commands, aopt, rs, records, leak)
      modifies this, pool`ref, pool`connect, live
      ensures Valid() && Onward() && fresh(live - old(live))
      ensures Behind(past, commands, aopt, rs + [r], records + [record], leak)
      ensures r.code == 0 && NoActivation(commands) ==> live == old(live) && Active() == old(Active())
      ensures r.code == 0 && AllUsable(commands) && old(temp.svr) == null ==> temp.svr == null
    {
      ghost var hosts := Targets(activeServers);
      hide Counted, Valid, Active, Leaked, FilesUsable, Lost, LostBy, Recorded, HostStep, Targets, AllTurns, Excused;
      r, record := Execute(commands[at], aopt, leak, Plans(Implied(commands[at].kind)), hosts);
      ToldOn(commands, aopt, rs, records, past.targets, hosts, r, record);
      AllTurnsStep(records, record);
      LostStep(commands, rs, Some(r));
      assert past.log + AllTurns(records) + record.turns == past.log + (AllTurns(records) + record.turns);
    }

    static predicate NoActivation(commands: seq<Command>) {
      forall i :: 0 <= i < |commands| ==> !commands[i].activate
    }

    static ghost predicate AllUsable(commands: seq<Command>) {
      forall i :: 0 <= i < |commands| ==> FilesUsable(commands[i].skips)
    }

    lemma {:induction false} BehindNothing(commands: seq<Command>, aopt: bool, leak: ObjName?)
      requires leak != null ==> leak in Leaked()
      ensures Behind(Past(nservers, |Leaked()|, if leak == null then null else leak.svr, log, Targets(activeServers)),
                     commands, aopt, [], [], leak)
    {
      assert log + [] == log;
    }

    lemma {:induction false} BehindMeans(past: Past, commands: seq<Command>, aopt: bool, rs: seq<Outcome>,
                                         records: seq<Record>, leak: ObjName?)
      requires Valid() && Behind(past, commands, aopt, rs, records, leak)
      ensures |rs| == |records| <= |commands|
      ensures Told(commands, aopt, rs, records, past.targets) && log == past.log + AllTurns(records)
      ensures nservers <= maxConnections || nservers <= past.nservers
      ensures leak != null ==> leak in Leaked() && leak.svr == past.leakSvr
      ensures |Leaked()| == past.leaked + LostBy(commands, rs)
      ensures leak != null && leak.svr != null ==> leak.svr in servers
    {
      LeakedAreOpen(leak);
    }

    /** The loop of main, with any name leaked before. The status is that of the process: 0 at the end of the input. */
    method Session(commands: seq<Command>, aopt: bool, ghost leak: ObjName?)
      returns (status: nat, rs: seq<Outcome>, ghost records: seq<Record>)
      requires Valid() && (leak != null ==> leak in Leaked())
      modifies this, pool`ref, pool`connect, live
      ensures Valid() && Onward() && (nservers <= maxConnections || nservers <= old(nservers))
      ensures |rs| <= |commands| && (status == 0 ==> |rs| == |commands|)
      ensures status == 0 <==> forall i :: 0 <= i < |rs| ==> !rs[i].Ends(aopt)
      ensures status != 0 ==> rs != [] && status == if rs[|rs| - 1].code != 0 then rs[|rs| - 1].code else 2
      ensures leak != null ==> leak in Leaked() && leak.svr == old(leak.svr)
      ensures leak != null && leak.svr != null ==> leak.svr in servers
      ensures |Leaked()| == |old(Leaked())| + LostBy(commands, rs)
      ensures status == 0 && NoActivation(commands) ==> live == old(live) && Active() == old(Active())
      ensures status == 0 && AllUsable(commands) && old(temp.svr) == null ==> temp.svr == null
      ensures log == old(log) + AllTurns(records)
      ensures Told(commands, aopt, rs, records, old(Targets(activeServers)))
    {
      hide Counted, Valid, Active, Leaked, FilesUsable, LostBy, Told, Targets, AllTurns, Excused;
      hide Behind, NoActivation, AllUsable;
      ghost var past :=
        Past(nservers, |Leaked()|, if leak == null then null else leak.svr, log, Targets(activeServers));
      BehindNothing(commands, aopt, leak);
      rs, records, status := [], [], 0;
      while |rs| < |commands| && status == 0
        invariant |rs| <= |commands| && Valid() && Onward() && fresh(live - old(live))
        invariant Behind(past, commands, aopt, rs, records, leak)
        invariant status == 0 <==> forall i :: 0 <= i < |rs| ==> !rs[i].Ends(aopt)
        invariant status != 0 ==> rs != [] && status == if rs[|rs| - 1].code != 0 then rs[|rs| - 1].code else 2
        invariant status == 0 && NoActivation(commands) ==> live == old(live) && Active() == old(Active())
        invariant status == 0 && AllUsable(commands) && old(temp.svr) == null ==> temp.svr == null
      {
        ghost var record;
        var r;
        r, record := OneCommand(commands, aopt, rs, records, past, leak, |rs|);
        rs, records := rs + [r], records + [record];
        if r.Ends(aopt) {
          assert rs[|rs| - 1].Ends(aopt);
          status := if r.code != 0 then r.code else 2;
        }
      }
      BehindMeans(past, commands, aopt, rs, records, leak);
    }
  }
}
