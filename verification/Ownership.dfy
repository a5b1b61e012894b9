/** Who holds each extension process (pkg/extension/manager.go): parallel starts, stops and targeted reloads hand
    processes to one another, and none may be dropped on the way. */
module Ownership {
  import opened Wrappers

  /** A registered extension: its name and its process. */
  datatype Managed = Managed(name: string, pid: nat)

  function Without(bridges: seq<Managed>, name: string): seq<Managed> {
    if |bridges| == 0 then []
    else
      var last := bridges[|bridges| - 1];
      Without(bridges[..|bridges| - 1], name) + if last.name == name then [] else [last]
  }

  function LastNamed(bridges: seq<Managed>, name: string): Option<Managed> {
    if |bridges| == 0 then None
    else if bridges[|bridges| - 1].name == name then Some(bridges[|bridges| - 1])
    else LastNamed(bridges[..|bridges| - 1], name)
  }

  /** Callbacks of bridges by process, a missing one being nil. */
  type Callbacks = map<nat, nat>

  /** Every one of the bridges gets the callback, or loses it. */
  function Spread(callbacks: Callbacks, bridges: seq<Managed>, fn: Option<nat>): Callbacks {
    if |bridges| == 0 then callbacks
    else
      var rest := Spread(callbacks, bridges[..|bridges| - 1], fn);
      Wire(rest, bridges[|bridges| - 1].pid, fn)
  }

  function Wire(callbacks: Callbacks, pid: nat, fn: Option<nat>): Callbacks {
    match fn
    case None => callbacks - {pid}
    case Some(f) => callbacks[pid := f]
  }

  predicate Calls(callbacks: Callbacks, pid: nat, fn: Option<nat>) {
    if pid in callbacks then fn == Some(callbacks[pid]) else fn == None
  }

  lemma {:induction false} SpreadReaches(callbacks: Callbacks, bridges: seq<Managed>, fn: Option<nat>, pid: nat)
    ensures if exists i :: 0 <= i < |bridges| && bridges[i].pid == pid then Calls(Spread(callbacks, bridges, fn), pid, fn)
            else (pid in Spread(callbacks, bridges, fn) <==> pid in callbacks)
                 && (pid in callbacks ==> Spread(callbacks, bridges, fn)[pid] == callbacks[pid])
  {
    if |bridges| > 0 {
      var n := |bridges| - 1;
      SpreadReaches(callbacks, bridges[..n], fn, pid);
      if i :| 0 <= i < n && bridges[..n][i].pid == pid {
        assert bridges[i].pid == pid;
      }
      if i :| 0 <= i < |bridges| && bridges[i].pid == pid {
        assert i < n ==> bridges[..n][i].pid == pid;
      }
    }
  }

  /** The fields m.mu guards, and its critical sections; `notifyOf` and `statusOf` are the bridges' own callbacks. */
  class Manager {
    var bridges: seq<Managed>
    var stopped: bool
    var notifyFn: Option<nat>
    var setStatusFn: Option<nat>
    var notifyOf: Callbacks
    var statusOf: Callbacks

    constructor ()
      ensures bridges == [] && !stopped && notifyFn == None && setStatusFn == None && notifyOf == map[] && statusOf == map[]
    {
      bridges, stopped, notifyFn, setStatusFn, notifyOf, statusOf := [], false, None, None, map[], map[];
    }

    method Open()
      modifies this`stopped
      ensures !stopped
    {
      stopped := false;
    }

    /** The end of startOne: wire and register the bridge in one section, unless the manager was stopped meanwhile. */
    method Adopt(mb: Managed) returns (adopted: bool)
      requires mb.pid !in notifyOf && mb.pid !in statusOf
      modifies this`bridges, this`notifyOf, this`statusOf
      ensures adopted <==> !stopped
      ensures bridges == if adopted then old(bridges) + [mb] else old(bridges)
      ensures notifyOf == if adopted then Wire(old(notifyOf), mb.pid, notifyFn) else old(notifyOf)
      ensures statusOf == if adopted then Wire(old(statusOf), mb.pid, setStatusFn) else old(statusOf)
    {
      if stopped {
        return false;
      }
      assert notifyOf - {mb.pid} == notifyOf && statusOf - {mb.pid} == statusOf;
      if notifyFn.Some? {
        notifyOf := notifyOf[mb.pid := notifyFn.value];
      }
      if setStatusFn.Some? {
        statusOf := statusOf[mb.pid := setStatusFn.value];
      }
      bridges := bridges + [mb];
      adopted := true;
    }

    method SetNotifyFn(fn: Option<nat>)
      modifies this`notifyFn, this`notifyOf
      ensures notifyFn == fn && notifyOf == Spread(old(notifyOf), bridges, fn)
    {
      notifyFn := fn;
      for i := 0 to |bridges|
        invariant notifyFn == fn && notifyOf == Spread(old(notifyOf), bridges[..i], fn)
      {
        assert bridges[..i + 1][..i] == bridges[..i];
        notifyOf := Wire(notifyOf, bridges[i].pid, fn);
      }
      assert bridges[..|bridges|] == bridges;
    }

    method SetSetStatusFn(fn: Option<nat>)
      modifies this`setStatusFn, this`statusOf
      ensures setStatusFn == fn && statusOf == Spread(old(statusOf), bridges, fn)
    {
      setStatusFn := fn;
      for i := 0 to |bridges|
        invariant setStatusFn == fn && statusOf == Spread(old(statusOf), bridges[..i], fn)
      {
        assert bridges[..i + 1][..i] == bridges[..i];
        statusOf := Wire(statusOf, bridges[i].pid, fn);
      }
      assert bridges[..|bridges|] == bridges;
    }

    method TakeAll() returns (taken: seq<Managed>)
      modifies this`bridges, this`stopped
      ensures taken == old(bridges) && bridges == [] && stopped
    {
      taken, bridges, stopped := bridges, [], true;
    }

    /** The scan of ReloadOne. */
    method TakeNamed(name: string) returns (running: Option<Managed>)
      modifies this`bridges
      ensures bridges == Without(old(bridges), name) && running == LastNamed(old(bridges), name)
    {
      running := None;
      var kept: seq<Managed> := [];
      for i := 0 to |bridges|
        invariant kept == Without(bridges[..i], name) && running == LastNamed(bridges[..i], name)
        invariant bridges == old(bridges)
      {
        assert bridges[..i + 1][..i] == bridges[..i];
        if bridges[i].name == name {
          running := Some(bridges[i]);
        } else {
          kept := kept + [bridges[i]];
        }
      }
      assert bridges[..|bridges|] == bridges;
      bridges := kept;
    }
  }

  // ---- starts, stops and reloads, interleaved ----

  /** A startOne in flight: before its process is up, with it, or about to stop it again. */
  datatype Starter =
    | Checking(name: string)
    | Up(name: string, pid: nat)
    | Doomed(name: string, pid: nat)

  /** ReloadOne, of which reloadOneMu lets one run at a time: it tears down what ran under the name, then has a
      startOne of its own. */
  datatype Reload =
    | NoReload
    | Tearing(name: string, running: Option<Managed>, found: bool)
    | Starting(st: Starter)

  /** `live` are the processes spawned and not yet stopped; `taken` is what Stop calls still have to stop. */
  datatype Sys = Sys(live: set<nat>, nextPid: nat, bridges: seq<Managed>, stopped: bool, starters: seq<Starter>,
                     taken: seq<Managed>, reload: Reload)

  /** Which startOne moves: one of Start's goroutines, or ReloadOne's. */
  datatype Who = ByStart(i: nat) | ByReload

  datatype Label =
    | Open
    | Launch(names: seq<string>)
    | Skip(who: Who)
    | Spawn(who: Who)
    | Fail(who: Who)
    | Adopt(who: Who)
    | Kill(who: Who)
    | StopTake
    | StopKill(j: nat)
    | ReloadTake(name: string, found: bool)
    | ReloadKill
    | ReloadSpawn
    | ReloadDone

  function Drop<T>(xs: seq<T>, i: nat): seq<T>
    requires i < |xs|
  {
    xs[..i] + xs[i + 1..]
  }

  function Fresh(names: seq<string>): seq<Starter> {
    seq(|names|, i requires 0 <= i < |names| => Checking(names[i]))
  }

  predicate Runs(s: Sys, who: Who) {
    match who
    case ByStart(i) => i < |s.starters|
    case ByReload => s.reload.Starting?
  }

  function Get(s: Sys, who: Who): Starter
    requires Runs(s, who)
  {
    match who
    case ByStart(i) => s.starters[i]
    case ByReload => s.reload.st
  }

  function Put(s: Sys, who: Who, st: Starter): Sys
    requires Runs(s, who)
  {
    match who
    case ByStart(i) => s.(starters := s.starters[i := st])
    case ByReload => s.(reload := Starting(st))
  }

  /** A startOne returns; ReloadOne's own ends that reload. */
  function End(s: Sys, who: Who): Sys
    requires Runs(s, who)
  {
    match who
    case ByStart(i) => s.(starters := Drop(s.starters, i))
    case ByReload => s.(reload := NoReload)
  }

  ghost predicate Next(s: Sys, l: Label, t: Sys) {
    match l
    case Open => t == s.(stopped := false)
    case Launch(names) => t == s.(starters := s.starters + Fresh(names))
    case Skip(who) => Runs(s, who) && Get(s, who).Checking? && t == End(s, who)
    case Spawn(who) =>
      Runs(s, who) && Get(s, who).Checking? &&
      t == Put(s, who, Up(Get(s, who).name, s.nextPid)).(live := s.live + {s.nextPid}, nextPid := s.nextPid + 1)
    case Fail(who) => Runs(s, who) && Get(s, who).Up? && t == Put(s, who, Doomed(Get(s, who).name, Get(s, who).pid))
    case Adopt(who) =>
      Runs(s, who) && Get(s, who).Up? &&
      t == if s.stopped then Put(s, who, Doomed(Get(s, who).name, Get(s, who).pid))
           else End(s, who).(bridges := s.bridges + [Managed(Get(s, who).name, Get(s, who).pid)])
    case Kill(who) => Runs(s, who) && Get(s, who).Doomed? && t == End(s, who).(live := s.live - {Get(s, who).pid})
    case StopTake => t == s.(taken := s.taken + s.bridges, bridges := [], stopped := true)
    case StopKill(j) => j < |s.taken| && t == s.(taken := Drop(s.taken, j), live := s.live - {s.taken[j].pid})
    case ReloadTake(name, found) =>
      s.reload == NoReload &&
      t == s.(bridges := Without(s.bridges, name), reload := Tearing(name, LastNamed(s.bridges, name), found))
    case ReloadKill =>
      s.reload.Tearing? && s.reload.running.Some? &&
      t == s.(reload := s.reload.(running := None), live := s.live - {s.reload.running.value.pid})
    case ReloadSpawn =>
      s.reload.Tearing? && s.reload.running == None && s.reload.found && t == s.(reload := Starting(Checking(s.reload.name)))
    case ReloadDone => s.reload.Tearing? && s.reload.running == None && !s.reload.found && t == s.(reload := NoReload)
  }

  ghost predicate Init(s: Sys) {
    s.live == {} && s.bridges == [] && !s.stopped && s.starters == [] && s.taken == [] && s.reload == NoReload
  }

  // ---- who holds what ----

  function PidOf(st: Starter): multiset<nat> {
    if st.Checking? then multiset{} else multiset{st.pid}
  }

  function PidOfManaged(m: Managed): multiset<nat> { multiset{m.pid} }

  /** What the members of a list contribute, with multiplicity. */
  function Gather<X, T(==)>(xs: seq<X>, f: X -> multiset<T>): multiset<T> {
    if |xs| == 0 then multiset{} else Gather(xs[..|xs| - 1], f) + f(xs[|xs| - 1])
  }

  function StarterPids(starters: seq<Starter>): multiset<nat> { Gather(starters, PidOf) }

  function Pids(ms: seq<Managed>): multiset<nat> { Gather(ms, PidOfManaged) }

  function RunningPid(running: Option<Managed>): multiset<nat> {
    match running
    case Some(m) => multiset{m.pid}
    case None => multiset{}
  }

  function ReloadPids(r: Reload): multiset<nat> {
    match r
    case NoReload => multiset{}
    case Tearing(_, running, _) => RunningPid(running)
    case Starting(st) => PidOf(st)
  }

  /** Every holder's processes, with multiplicity. */
  function Held(s: Sys): multiset<nat> {
    StarterPids(s.starters) + Pids(s.bridges) + Pids(s.taken) + ReloadPids(s.reload)
  }

  /** Ownership is a partition: every live process has exactly one holder, and nothing else is held. */
  ghost predicate Partition(s: Sys) {
    Held(s) == multiset(s.live)
  }

  ghost predicate Inv(s: Sys) {
    && Partition(s)
    && (forall p | p in s.live :: p < s.nextPid)
    && (s.stopped ==> s.bridges == [])
  }

  lemma {:induction false} GatherConcat<X, T>(a: seq<X>, b: seq<X>, f: X -> multiset<T>)
    ensures Gather(a + b, f) == Gather(a, f) + Gather(b, f)
  {
    if |b| == 0 {
      assert a + b == a;
    } else {
      assert (a + b)[..|a + b| - 1] == a + b[..|b| - 1];
      GatherConcat(a, b[..|b| - 1], f);
    }
  }

  lemma GatherOne<X, T>(x: X, f: X -> multiset<T>)
    ensures Gather([x], f) == f(x)
  {
    assert [x][..0] == [];
    assert Gather([x][..0], f) == multiset{};
  }

  lemma GatherAt<X, T>(xs: seq<X>, i: nat, f: X -> multiset<T>)
    requires i < |xs|
    ensures Gather(xs, f) == Gather(Drop(xs, i), f) + f(xs[i])
  {
    var front, back := xs[..i], xs[i + 1..];
    assert xs == front + ([xs[i]] + back);
    GatherConcat(front, [xs[i]] + back, f);
    GatherConcat([xs[i]], back, f);
    GatherConcat(front, back, f);
    GatherOne(xs[i], f);
    MiddleOut(Gather(front, f), f(xs[i]), Gather(back, f));
  }

  lemma MiddleOut<T>(a: multiset<T>, x: multiset<T>, b: multiset<T>)
    ensures a + (x + b) == a + b + x
  {
  }

  lemma {:induction false} FreshHoldNothing(names: seq<string>)
    ensures StarterPids(Fresh(names)) == multiset{}
  {
    if |names| > 0 {
      FreshHoldNothing(names[..|names| - 1]);
      assert Fresh(names)[..|names| - 1] == Fresh(names[..|names| - 1]);
    }
  }

  // ---- the four holders, one hand-over at a time ----

  lemma EndHeld(s: Sys, who: Who)
    requires Runs(s, who)
    ensures Held(s) == Held(End(s, who)) + PidOf(Get(s, who))
  {
    if who.ByStart? {
      GatherAt(s.starters, who.i, PidOf);
    }
  }

  lemma PutHeld(s: Sys, who: Who, st: Starter)
    requires Runs(s, who)
    ensures Held(Put(s, who, st)) == Held(End(s, who)) + PidOf(st)
  {
    var t := Put(s, who, st);
    EndHeld(t, who);
    if who.ByStart? {
      assert Drop(s.starters[who.i := st], who.i) == Drop(s.starters, who.i);
    }
    assert End(t, who) == End(s, who);
  }

  lemma BridgeHeld(s: Sys, m: Managed)
    ensures Held(s.(bridges := s.bridges + [m])) == Held(s) + multiset{m.pid}
  {
    GatherConcat(s.bridges, [m], PidOfManaged);
    GatherOne(m, PidOfManaged);
  }

  lemma StopTakeHeld(s: Sys)
    ensures Held(s.(taken := s.taken + s.bridges, bridges := [])) == Held(s)
  {
    GatherConcat(s.taken, s.bridges, PidOfManaged);
  }

  lemma StopKillHeld(s: Sys, j: nat)
    requires j < |s.taken|
    ensures Held(s) == Held(s.(taken := Drop(s.taken, j))) + multiset{s.taken[j].pid}
  {
    GatherAt(s.taken, j, PidOfManaged);
  }

  lemma ReloadKillHeld(s: Sys)
    requires s.reload.Tearing? && s.reload.running.Some?
    ensures Held(s) == Held(s.(reload := s.reload.(running := None))) + multiset{s.reload.running.value.pid}
  {
  }

  lemma LaunchHeld(s: Sys, names: seq<string>)
    ensures Held(s.(starters := s.starters + Fresh(names))) == Held(s)
  {
    GatherConcat(s.starters, Fresh(names), PidOf);
    FreshHoldNothing(names);
  }

  function NameOfManaged(m: Managed): multiset<string> { multiset{m.name} }

  function CountNamed(bridges: seq<Managed>, name: string): nat { Gather(bridges, NameOfManaged)[name] }

  lemma CountSnoc(front: seq<Managed>, last: Managed, n: string)
    ensures CountNamed(front + [last], n) == CountNamed(front, n) + if last.name == n then 1 else 0
  {
    assert (front + [last])[..|front|] == front;
  }

  lemma PidsSnoc(front: seq<Managed>, last: Managed)
    ensures Pids(front + [last]) == Pids(front) + multiset{last.pid}
  {
    assert (front + [last])[..|front|] == front;
  }

  lemma {:induction false} PidsSize(bridges: seq<Managed>)
    ensures |Pids(bridges)| == |bridges|
  {
    if |bridges| > 0 {
      PidsSize(bridges[..|bridges| - 1]);
    }
  }

  lemma {:induction false} TakeNamedSizes(bridges: seq<Managed>, name: string)
    ensures |Without(bridges, name)| == |bridges| - CountNamed(bridges, name)
    ensures LastNamed(bridges, name).None? <==> CountNamed(bridges, name) == 0
    ensures CountNamed(bridges, name) == 0 ==> Without(bridges, name) == bridges
  {
    if |bridges| > 0 {
      var front, last := bridges[..|bridges| - 1], bridges[|bridges| - 1];
      TakeNamedSizes(front, name);
      CountSnoc(front, last, name);
      assert bridges == front + [last];
    }
  }

  lemma TakeSnoc(front: seq<Managed>, last: Managed, name: string)
    ensures Without(front + [last], name) == if last.name == name then Without(front, name) else Without(front, name) + [last]
    ensures LastNamed(front + [last], name) == if last.name == name then Some(last) else LastNamed(front, name)
  {
    assert (front + [last])[..|front|] == front;
    assert Without(front, name) + [] == Without(front, name);
  }

  lemma {:induction false} TakeNamedPids(bridges: seq<Managed>, name: string)
    requires CountNamed(bridges, name) <= 1
    ensures Pids(bridges) == Pids(Without(bridges, name)) + RunningPid(LastNamed(bridges, name))
  {
    if |bridges| > 0 {
      var front, last := bridges[..|bridges| - 1], bridges[|bridges| - 1];
      assert bridges == front + [last];
      CountSnoc(front, last, name);
      PidsSnoc(front, last);
      TakeSnoc(front, last, name);
      if last.name == name {
        TakeNamedSizes(front, name);
      } else {
        TakeNamedPids(front, name);
        PidsSnoc(Without(front, name), last);
      }
    }
  }

  lemma HeldSize(s: Sys)
    ensures |Held(s)| == |StarterPids(s.starters)| + |Pids(s.bridges)| + |Pids(s.taken)| + |ReloadPids(s.reload)|
  {
  }

  lemma ReloadTakeHeld(s: Sys, name: string, found: bool)
    requires s.reload == NoReload && CountNamed(s.bridges, name) <= 1
    ensures Held(s.(bridges := Without(s.bridges, name), reload := Tearing(name, LastNamed(s.bridges, name), found))) == Held(s)
  {
    TakeNamedPids(s.bridges, name);
  }

  /** ReloadOne keeps hold of one bridge of the name and drops any other: it keeps the partition exactly when at
      most one running extension has the name. */
  lemma ReloadTakeExactly(s: Sys, name: string, found: bool, t: Sys)
    requires Partition(s) && Next(s, ReloadTake(name, found), t)
    ensures Partition(t) <==> CountNamed(s.bridges, name) <= 1
  {
    if CountNamed(s.bridges, name) <= 1 {
      ReloadTakeHeld(s, name, found);
    } else {
      TakeNamedSizes(s.bridges, name);
      PidsSize(s.bridges);
      PidsSize(t.bridges);
      HeldSize(s);
      HeldSize(t);
      assert |ReloadPids(t.reload)| <= 1;
      assert |Held(t)| < |Held(s)|;
    }
  }

  /** A holder stops its process and lets it go. */
  lemma Released(s: Sys, t: Sys, pid: nat)
    requires Inv(s) && Held(s) == Held(t) + multiset{pid}
    requires t.live == s.live - {pid} && t.nextPid == s.nextPid && (t.stopped ==> t.bridges == [])
    ensures Inv(t)
  {
    assert Held(s)[pid] >= 1;
    RemovedPid(s.live, pid);
    Cancel(Held(t), multiset(t.live), pid);
  }

  lemma Cancel(a: multiset<nat>, b: multiset<nat>, x: nat)
    requires a + multiset{x} == b + multiset{x}
    ensures a == b
  {
    forall y ensures a[y] == b[y] {
      assert (a + multiset{x})[y] == (b + multiset{x})[y];
    }
  }

  lemma RemovedPid(live: set<nat>, pid: nat)
    requires pid in live
    ensures multiset(live) == multiset(live - {pid}) + multiset{pid}
  {
  }

  lemma AddedPid(live: set<nat>, pid: nat)
    requires pid !in live
    ensures multiset(live + {pid}) == multiset(live) + multiset{pid}
  {
  }

  /** A holder gets a new process. */
  lemma Gained(s: Sys, t: Sys)
    requires Inv(s) && Held(t) == Held(s) + multiset{s.nextPid}
    requires t.live == s.live + {s.nextPid} && t.nextPid == s.nextPid + 1 && (t.stopped ==> t.bridges == [])
    ensures Inv(t)
  {
    AddedPid(s.live, s.nextPid);
  }

  lemma SpawnKeeps(s: Sys, who: Who, t: Sys)
    requires Inv(s) && Next(s, Spawn(who), t)
    ensures Inv(t)
  {
    var up := Up(Get(s, who).name, s.nextPid);
    EndHeld(s, who);
    PutHeld(s, who, up);
    assert Held(End(s, who)) == Held(s);
    SameHeld(Put(s, who, up), t);
    Gained(s, t);
  }

  lemma SameHeld(s: Sys, t: Sys)
    requires s.starters == t.starters && s.bridges == t.bridges && s.taken == t.taken && s.reload == t.reload
    ensures Held(s) == Held(t)
  {
  }

  lemma FailKeeps(s: Sys, who: Who, t: Sys)
    requires Inv(s) && Next(s, Fail(who), t)
    ensures Inv(t)
  {
    EndHeld(s, who);
    PutHeld(s, who, Doomed(Get(s, who).name, Get(s, who).pid));
  }

  lemma AdoptKeeps(s: Sys, who: Who, t: Sys)
    requires Inv(s) && Next(s, Adopt(who), t)
    ensures Inv(t)
  {
    var st := Get(s, who);
    EndHeld(s, who);
    if s.stopped {
      PutHeld(s, who, Doomed(st.name, st.pid));
    } else {
      BridgeHeld(End(s, who), Managed(st.name, st.pid));
    }
  }

  lemma KillKeeps(s: Sys, who: Who, t: Sys)
    requires Inv(s) && Next(s, Kill(who), t)
    ensures Inv(t)
  {
    EndHeld(s, who);
    SameHeld(End(s, who), t);
    Released(s, t, Get(s, who).pid);
  }

  lemma StopKillKeeps(s: Sys, j: nat, t: Sys)
    requires Inv(s) && Next(s, StopKill(j), t)
    ensures Inv(t)
  {
    StopKillHeld(s, j);
    SameHeld(s.(taken := Drop(s.taken, j)), t);
    Released(s, t, s.taken[j].pid);
  }

  lemma ReloadKillKeeps(s: Sys, t: Sys)
    requires Inv(s) && Next(s, ReloadKill, t)
    ensures Inv(t)
  {
    ReloadKillHeld(s);
    SameHeld(s.(reload := s.reload.(running := None)), t);
    Released(s, t, s.reload.running.value.pid);
  }

  lemma ReloadTakeKeeps(s: Sys, name: string, found: bool, t: Sys)
    requires Inv(s) && Next(s, ReloadTake(name, found), t) && CountNamed(s.bridges, name) <= 1
    ensures Inv(t)
  {
    ReloadTakeExactly(s, name, found, t);
    TakeNamedSizes(s.bridges, name);
  }

  lemma SkipKeeps(s: Sys, who: Who, t: Sys)
    requires Inv(s) && Next(s, Skip(who), t)
    ensures Inv(t)
  {
    EndHeld(s, who);
  }

  lemma NextKeepsPartition(s: Sys, l: Label, t: Sys)
    requires Inv(s) && Next(s, l, t)
    requires l.ReloadTake? ==> CountNamed(s.bridges, l.name) <= 1
    ensures Inv(t)
  {
    match l
    case Launch(names) => LaunchHeld(s, names);
    case Skip(who) => SkipKeeps(s, who, t);
    case Spawn(who) => SpawnKeeps(s, who, t);
    case Fail(who) => FailKeeps(s, who, t);
    case Adopt(who) => AdoptKeeps(s, who, t);
    case Kill(who) => KillKeeps(s, who, t);
    case StopTake => StopTakeHeld(s);
    case StopKill(j) => StopKillKeeps(s, j, t);
    case ReloadTake(name, found) => ReloadTakeKeeps(s, name, found, t);
    case ReloadKill => ReloadKillKeeps(s, t);
    case _ => SameHeld(s, s);
  }

  // ---- names ----

  /** The names that may come to run: those running and those a startOne is still bringing up. */
  function LiveName(st: Starter): multiset<string> {
    if st.Doomed? then multiset{} else multiset{st.name}
  }

  function ReloadName(r: Reload): multiset<string> {
    if r.Starting? then LiveName(r.st) else multiset{}
  }

  function NameBag(s: Sys): multiset<string> {
    Gather(s.bridges, NameOfManaged) + Gather(s.starters, LiveName) + ReloadName(s.reload)
  }

  /** Names are distinct, and the name a reload is tearing down is not being started. */
  ghost predicate NamesOk(s: Sys) {
    && (forall n :: NameBag(s)[n] <= 1)
    && (s.reload.Tearing? ==> NameBag(s)[s.reload.name] == 0)
  }

  ghost predicate Distinct(names: seq<string>) {
    forall i, j | 0 <= i < j < |names| :: names[i] != names[j]
  }

  /** Start begins for names that are new, and not the one a reload is tearing down; ReloadOne begins with no startOne of
      Start's in flight for its name. */
  ghost predicate Orderly(s: Sys, l: Label) {
    match l
    case Launch(names) =>
      Distinct(names) &&
      forall i | 0 <= i < |names| :: NameBag(s)[names[i]] == 0 && (s.reload.Tearing? ==> names[i] != s.reload.name)
    case ReloadTake(name, _) => Gather(s.starters, LiveName)[name] == 0
    case _ => true
  }

  lemma EndNames(s: Sys, who: Who)
    requires Runs(s, who)
    ensures NameBag(s) == NameBag(End(s, who)) + LiveName(Get(s, who))
  {
    if who.ByStart? {
      GatherAt(s.starters, who.i, LiveName);
    }
  }

  lemma PutNames(s: Sys, who: Who, st: Starter)
    requires Runs(s, who)
    ensures NameBag(Put(s, who, st)) == NameBag(End(s, who)) + LiveName(st)
  {
    var t := Put(s, who, st);
    EndNames(t, who);
    if who.ByStart? {
      assert Drop(s.starters[who.i := st], who.i) == Drop(s.starters, who.i);
    }
    assert End(t, who) == End(s, who);
  }

  lemma {:induction false} FreshNames(names: seq<string>)
    requires Distinct(names)
    ensures forall n :: Gather(Fresh(names), LiveName)[n] == if n in names then 1 else 0
  {
    if |names| > 0 {
      var front, last := names[..|names| - 1], names[|names| - 1];
      FreshNames(front);
      assert Fresh(names)[..|names| - 1] == Fresh(front);
      assert names == front + [last];
    }
  }

  lemma {:induction false} WithoutNames(bridges: seq<Managed>, name: string, n: string)
    ensures CountNamed(Without(bridges, name), n) == if n == name then 0 else CountNamed(bridges, n)
  {
    if |bridges| > 0 {
      var front, last := bridges[..|bridges| - 1], bridges[|bridges| - 1];
      WithoutNames(front, name, n);
      CountSnoc(front, last, n);
      assert bridges == front + [last];
      if last.name == name {
        assert Without(front, name) + [] == Without(front, name);
      } else {
        CountSnoc(Without(front, name), last, n);
      }
    }
  }

  /** Names only become fewer, and no reload begins tearing down. */
  lemma FewerNames(s: Sys, t: Sys)
    requires NamesOk(s) && NameBag(t) <= NameBag(s) && (t.reload == s.reload || !t.reload.Tearing?)
    ensures NamesOk(t)
  {
    forall n ensures NameBag(t)[n] <= NameBag(s)[n] {
    }
  }

  lemma EndingNames(s: Sys, l: Label, t: Sys)
    requires NamesOk(s) && Next(s, l, t) && (l.Skip? || l.Kill?)
    ensures NamesOk(t)
  {
    EndNames(s, l.who);
    FewerNames(s, t);
  }

  lemma SpawnNames(s: Sys, who: Who, t: Sys)
    requires NamesOk(s) && Next(s, Spawn(who), t)
    ensures NamesOk(t)
  {
    var up := Up(Get(s, who).name, s.nextPid);
    EndNames(s, who);
    PutNames(s, who, up);
    assert NameBag(t) == NameBag(Put(s, who, up));
    FewerNames(s, t);
  }

  lemma FailNames(s: Sys, who: Who, t: Sys)
    requires NamesOk(s) && Next(s, Fail(who), t)
    ensures NamesOk(t)
  {
    EndNames(s, who);
    PutNames(s, who, Doomed(Get(s, who).name, Get(s, who).pid));
    FewerNames(s, t);
  }

  lemma AdoptNames(s: Sys, who: Who, t: Sys)
    requires NamesOk(s) && Next(s, Adopt(who), t)
    ensures NamesOk(t)
  {
    var st := Get(s, who);
    var m := Managed(st.name, st.pid);
    EndNames(s, who);
    PutNames(s, who, Doomed(st.name, st.pid));
    GatherConcat(s.bridges, [m], NameOfManaged);
    GatherOne(m, NameOfManaged);
    FewerNames(s, t);
  }

  lemma LaunchNames(s: Sys, names: seq<string>, t: Sys)
    requires NamesOk(s) && Next(s, Launch(names), t) && Orderly(s, Launch(names))
    ensures NamesOk(t)
  {
    GatherConcat(s.starters, Fresh(names), LiveName);
    FreshNames(names);
    forall n ensures NameBag(t)[n] <= 1 {
      assert NameBag(t)[n] == NameBag(s)[n] + Gather(Fresh(names), LiveName)[n];
      if n in names {
        var i :| 0 <= i < |names| && names[i] == n;
        assert NameBag(s)[names[i]] == 0;
      }
    }
  }

  lemma BagAt(s: Sys, n: string)
    ensures NameBag(s)[n] == CountNamed(s.bridges, n) + Gather(s.starters, LiveName)[n] + ReloadName(s.reload)[n]
  {
  }

  lemma ReloadTakeNames(s: Sys, name: string, found: bool, t: Sys)
    requires NamesOk(s) && Next(s, ReloadTake(name, found), t) && Orderly(s, ReloadTake(name, found))
    ensures NamesOk(t)
  {
    assert t.reload == Tearing(name, LastNamed(s.bridges, name), found) && t.starters == s.starters;
    forall n ensures NameBag(t)[n] == if n == name then 0 else NameBag(s)[n] {
      BagAt(s, n);
      BagAt(t, n);
      WithoutNames(s.bridges, name, n);
    }
  }

  lemma NextKeepsNames(s: Sys, l: Label, t: Sys)
    requires NamesOk(s) && Next(s, l, t) && Orderly(s, l)
    ensures NamesOk(t)
  {
    match l
    case Open => FewerNames(s, t);
    case Launch(names) => LaunchNames(s, names, t);
    case Adopt(who) => AdoptNames(s, who, t);
    case StopTake => FewerNames(s, t);
    case StopKill(_) => FewerNames(s, t);
    case ReloadTake(name, found) => ReloadTakeNames(s, name, found, t);
    case ReloadKill =>
      assert NameBag(t) == NameBag(s);
    case ReloadSpawn =>
      assert NameBag(t) == NameBag(s) + multiset{s.reload.name};
    case ReloadDone => FewerNames(s, t);
    case Spawn(who) => SpawnNames(s, who, t);
    case Fail(who) => FailNames(s, who, t);
    case _ => EndingNames(s, l, t);
  }

  // ---- runs ----

  ghost predicate Run(states: seq<Sys>, labels: seq<Label>) {
    && |states| == |labels| + 1 && Init(states[0])
    && forall i | 0 <= i < |labels| :: Next(states[i], labels[i], states[i + 1])
  }

  ghost predicate OrderlyRun(states: seq<Sys>, labels: seq<Label>) {
    Run(states, labels) && forall i | 0 <= i < |labels| :: Orderly(states[i], labels[i])
  }

  lemma StepKeepsBoth(s: Sys, l: Label, t: Sys)
    requires Inv(s) && NamesOk(s) && Next(s, l, t) && Orderly(s, l)
    ensures Inv(t) && NamesOk(t)
  {
    if l.ReloadTake? {
      assert NameBag(s)[l.name] <= 1;
    }
    NextKeepsPartition(s, l, t);
    NextKeepsNames(s, l, t);
  }

  lemma {:induction false} ReachedKeepsBoth(states: seq<Sys>, labels: seq<Label>, i: nat)
    requires OrderlyRun(states, labels) && i < |states|
    ensures Inv(states[i]) && NamesOk(states[i])
  {
    if i > 0 {
      ReachedKeepsBoth(states, labels, i - 1);
      assert Next(states[i - 1], labels[i - 1], states[i - 1 + 1]) && Orderly(states[i - 1], labels[i - 1]);
      StepKeepsBoth(states[i - 1], labels[i - 1], states[i]);
    }
  }

  /** With Stop interleaved anywhere, every live process has exactly one holder at every moment, and the names of
      running extensions stay distinct. */
  lemma OwnershipIsAPartition(states: seq<Sys>, labels: seq<Label>)
    requires OrderlyRun(states, labels)
    ensures forall i | 0 <= i < |states| :: Inv(states[i]) && NamesOk(states[i])
  {
    forall i | 0 <= i < |states| ensures Inv(states[i]) && NamesOk(states[i]) {
      ReachedKeepsBoth(states, labels, i);
    }
  }

  /** No process is orphaned: once the manager is stopped and every start, stop and reload under way is over, no
      process is left. */
  lemma StopLeavesNoOrphan(states: seq<Sys>, labels: seq<Label>, i: nat)
    requires OrderlyRun(states, labels) && i < |states|
    requires states[i].stopped && states[i].starters == [] && states[i].taken == [] && states[i].reload == NoReload
    ensures states[i].live == {}
  {
    OwnershipIsAPartition(states, labels);
    var s := states[i];
    assert Held(s) == multiset{};
    assert forall p :: multiset(s.live)[p] == 0;
    assert forall p | p in s.live :: multiset(s.live)[p] == 1;
  }

  /** And that state can always be reached: a startOne can only go on to return, a stop to finish. Each label here
      makes the work left smaller, and while some is left one of them is possible. */
  function WorkLeft(s: Sys): nat {
    StartersLeft(s.starters) + |s.taken| +
    match s.reload
    case NoReload => 0
    case Tearing(_, running, _) => if running.Some? then 5 else 4
    case Starting(st) => StarterLeft(st)
  }

  function StarterLeft(st: Starter): nat { if st.Checking? then 3 else if st.Up? then 2 else 1 }

  function StartersLeft(starters: seq<Starter>): nat {
    if |starters| == 0 then 0 else StartersLeft(starters[..|starters| - 1]) + StarterLeft(starters[|starters| - 1])
  }

  lemma StarterCanFinish(s: Sys)
    requires s.stopped && s.starters != []
    ensures exists l: Label, t :: Next(s, l, t) && WorkLeft(t) < WorkLeft(s) && t.stopped
  {
    var k := |s.starters| - 1;
    var who, st := ByStart(k), s.starters[k];
    assert s.starters[..k] + s.starters[k + 1..] == s.starters[..k];
    match st {
      case Checking(_) => assert Next(s, Skip(who), End(s, who)) && WorkLeft(End(s, who)) < WorkLeft(s);
      case Up(name, pid) =>
        var t := Put(s, who, Doomed(name, pid));
        assert t.starters[..k] == s.starters[..k];
        assert Next(s, Adopt(who), t) && WorkLeft(t) < WorkLeft(s);
      case Doomed(_, pid) =>
        var t := End(s, who).(live := s.live - {pid});
        assert Next(s, Kill(who), t) && WorkLeft(t) < WorkLeft(s);
    }
  }

  lemma StoppedCanFinish(s: Sys)
    requires s.stopped
    ensures WorkLeft(s) > 0 <==> s.starters != [] || s.taken != [] || s.reload != NoReload
    ensures WorkLeft(s) > 0 ==>
              exists l: Label, t :: Next(s, l, t) && WorkLeft(t) < WorkLeft(s) && t.stopped
  {
    if s.taken != [] {
      var t := s.(taken := Drop(s.taken, 0), live := s.live - {s.taken[0].pid});
      assert Next(s, StopKill(0), t) && WorkLeft(t) < WorkLeft(s);
    } else if s.starters != [] {
      StarterCanFinish(s);
    } else {
      match s.reload {
        case NoReload =>
        case Tearing(name, Some(m), _) =>
          var t := s.(reload := s.reload.(running := None), live := s.live - {m.pid});
          assert Next(s, ReloadKill, t) && WorkLeft(t) < WorkLeft(s);
        case Tearing(name, None, found) =>
          var t := if found then s.(reload := Starting(Checking(name))) else s.(reload := NoReload);
          assert Next(s, if found then ReloadSpawn else ReloadDone, t) && WorkLeft(t) < WorkLeft(s);
        case Starting(st) =>
          var t := if st.Checking? then End(s, ByReload)
                   else if st.Up? then Put(s, ByReload, Doomed(st.name, st.pid))
                   else End(s, ByReload).(live := s.live - {st.pid});
          assert Next(s, if st.Checking? then Skip(ByReload) else if st.Up? then Adopt(ByReload) else Kill(ByReload), t)
                 && WorkLeft(t) < WorkLeft(s);
      }
    }
  }

  // ---- why the starts must be orderly ----

  /** The states of a run in which a reload of "x" begins while Start is still bringing "x" up. */
  ghost function Hasty(x: string, i: nat): Sys {
    var both := [Managed(x, 0), Managed(x, 1)];
    match i
    case 0 => Sys({}, 0, [], false, [], [], NoReload)
    case 1 => Sys({}, 0, [], false, [Checking(x)], [], NoReload)
    case 2 => Sys({}, 0, [], false, [Checking(x)], [], Tearing(x, None, true))
    case 3 => Sys({}, 0, [], false, [Checking(x)], [], Starting(Checking(x)))
    case 4 => Sys({0}, 1, [], false, [Up(x, 0)], [], Starting(Checking(x)))
    case 5 => Sys({0, 1}, 2, [], false, [Up(x, 0)], [], Starting(Up(x, 1)))
    case 6 => Sys({0, 1}, 2, [Managed(x, 0)], false, [], [], Starting(Up(x, 1)))
    case 7 => Sys({0, 1}, 2, both, false, [], [], NoReload)
    case _ => Sys({0, 1}, 2, [], false, [], [], Tearing(x, Some(Managed(x, 1)), false))
  }

  ghost function HastyLabel(x: string, i: nat): Label {
    match i
    case 0 => Launch([x])
    case 1 => ReloadTake(x, true)
    case 2 => ReloadSpawn
    case 3 => Spawn(ByStart(0))
    case 4 => Spawn(ByReload)
    case 5 => Adopt(ByStart(0))
    case 6 => Adopt(ByReload)
    case _ => ReloadTake(x, false)
  }

  lemma HastyStep(x: string, i: nat)
    requires i < 8
    ensures Next(Hasty(x, i), HastyLabel(x, i), Hasty(x, i + 1))
  {
    match i {
      case 0 => assert [] + Fresh([x]) == [Checking(x)];
      case 1 => assert Without([], x) == [];
      case 3 => assert [Checking(x)][0 := Up(x, 0)] == [Up(x, 0)];
      case 5 => assert Drop([Up(x, 0)], 0) == [];
      case 6 => assert [Managed(x, 0)] + [Managed(x, 1)] == [Managed(x, 0), Managed(x, 1)];
      case 7 =>
        var one, both := [Managed(x, 0)], [Managed(x, 0), Managed(x, 1)];
        assert one[..0] == [] && Without([], x) == [] && Without(one, x) == [];
        assert both[..1] == one && Without(both, x) == [];
      case _ =>
    }
  }

  /** Such a reload finds nothing to tear down and starts a second "x"; the next reload keeps hold of one of the two,
      and the other is live but held by nobody. */
  lemma HastyReloadOrphans(x: string) returns (states: seq<Sys>, labels: seq<Label>)
    ensures Run(states, labels) && |labels| == 8
    ensures 0 in states[8].live && Held(states[8])[0] == 0
  {
    states := seq(9, i requires 0 <= i < 9 => Hasty(x, i));
    labels := seq(8, i requires 0 <= i < 8 => HastyLabel(x, i));
    forall i | 0 <= i < |labels| ensures Next(states[i], labels[i], states[i + 1]) {
      HastyStep(x, i);
    }
    assert Held(states[8]) == multiset{1};
  }
}
