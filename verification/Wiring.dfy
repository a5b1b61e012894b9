/** Callbacks of running extensions (pkg/extension/manager.go): a setter installs the manager's callback under its lock and
    hands it to the bridges it found there afterwards, while startOne wires and registers new bridges. The notify and the
    status callback are alike, so one of them is modelled. */
module Wiring {
  import opened Wrappers

  type Fn = Option<nat>

  /** A setter that still has bridges to reach. */
  datatype Setter = Setter(fn: Fn, todo: set<nat>)

  /** The manager's callback, its bridges, the callback each bridge holds, and the setters under way. */
  datatype Sys = Sys(fn: Fn, bridges: set<nat>, held: map<nat, Fn>, setters: map<nat, Setter>)

  datatype Label =
    | Install(k: nat, fn: Fn)
    | Reach(k: nat, b: nat)
    | Return(k: nat)
    | Adopt(b: nat)
    | Drop(gone: set<nat>)

  ghost predicate Next(s: Sys, l: Label, t: Sys) {
    match l
    case Install(k, fn) => k !in s.setters && t == s.(fn := fn, setters := s.setters[k := Setter(fn, s.bridges)])
    case Reach(k, b) =>
      k in s.setters && b in s.setters[k].todo &&
      t == s.(held := s.held[b := s.setters[k].fn], setters := s.setters[k := Setter(s.setters[k].fn, s.setters[k].todo - {b})])
    case Return(k) => k in s.setters && s.setters[k].todo == {} && t == s.(setters := s.setters - {k})
    case Adopt(b) => b !in s.held && t == s.(bridges := s.bridges + {b}, held := s.held[b := s.fn])
    case Drop(gone) => t == s.(bridges := s.bridges - gone)
  }

  ghost predicate Init(s: Sys) { s == Sys(None, {}, map[], map[]) }

  ghost predicate Path(states: seq<Sys>, labels: seq<Label>) {
    && |states| == |labels| + 1
    && forall i | 0 <= i < |labels| :: Next(states[i], labels[i], states[i + 1])
  }

  ghost predicate Run(states: seq<Sys>, labels: seq<Label>) { Path(states, labels) && Init(states[0]) }

  ghost predicate NoInstall(labels: seq<Label>) { forall i | 0 <= i < |labels| :: !labels[i].Install? }

  /** A setter reaches only bridges that were registered. */
  ghost predicate WellFormed(s: Sys) {
    s.bridges <= s.held.Keys && forall k | k in s.setters :: s.setters[k].todo <= s.held.Keys
  }

  ghost predicate Awaited(s: Sys, b: nat) { exists k :: k in s.setters && b in s.setters[k].todo }

  ghost predicate Agrees(s: Sys, k: nat, fn: Fn) {
    k in s.setters ==> forall b | b in s.setters[k].todo && b in s.bridges :: s.setters[k].fn == fn
  }

  /** Setters that still have a bridge to reach carry the manager's callback, and every bridge holds it or is about to get
      it. */
  ghost predicate Inv(s: Sys) {
    && WellFormed(s)
    && (forall k | k in s.setters :: Agrees(s, k, s.fn))
    && (forall b | b in s.bridges :: s.held[b] == s.fn || Awaited(s, b))
  }

  /** What a setter could check as it installs its callback: any other that still has one of the manager's bridges to
      reach carries the same. */
  ghost predicate MayInstall(s: Sys, fn: Fn) { forall k | k in s.setters :: Agrees(s, k, fn) }

  lemma NextKeepsWellFormed(s: Sys, l: Label, t: Sys)
    requires WellFormed(s) && Next(s, l, t)
    ensures WellFormed(t)
  {
  }

  /** Straight after an install it is right if and only if the install was allowed, whatever it was like before. */
  lemma InstalledExactly(s: Sys, k: nat, fn: Fn, t: Sys)
    requires WellFormed(s) && Next(s, Install(k, fn), t)
    ensures Inv(t) <==> MayInstall(s, fn)
  {
    NextKeepsWellFormed(s, Install(k, fn), t);
    forall b | b in t.bridges ensures Awaited(t, b) {
      assert b in t.setters[k].todo;
    }
    forall j | j in s.setters ensures Agrees(t, j, fn) <==> Agrees(s, j, fn) {
      assert j != k && t.setters[j] == s.setters[j];
    }
  }

  lemma StepKeepsAwaited(s: Sys, l: Label, t: Sys, b: nat)
    requires Inv(s) && Next(s, l, t) && !l.Install? && b in t.bridges
    ensures t.held[b] == t.fn || Awaited(t, b)
  {
    if b in s.bridges && s.held[b] != s.fn {
      var j :| j in s.setters && b in s.setters[j].todo;
      assert Agrees(s, j, s.fn);
      if l.Reach? && l.b == b {
        assert Agrees(s, l.k, s.fn);
      } else {
        assert j in t.setters && b in t.setters[j].todo;
      }
    } else if l.Reach? && l.b == b {
      assert Agrees(s, l.k, s.fn);
    }
  }

  lemma StepKeepsInv(s: Sys, l: Label, t: Sys)
    requires Inv(s) && Next(s, l, t) && !l.Install?
    ensures Inv(t)
  {
    NextKeepsWellFormed(s, l, t);
    forall b | b in t.bridges ensures t.held[b] == t.fn || Awaited(t, b) {
      StepKeepsAwaited(s, l, t, b);
    }
    forall j | j in t.setters ensures Agrees(t, j, t.fn) {
      assert Agrees(s, j, s.fn) && t.setters[j].fn == s.setters[j].fn && t.setters[j].todo <= s.setters[j].todo;
    }
  }

  // ---- runs ----

  /** Every install is allowed at its moment. */
  ghost predicate Guarded(states: seq<Sys>, labels: seq<Label>)
    requires |states| == |labels| + 1
  {
    forall i | 0 <= i < |labels| && labels[i].Install? :: MayInstall(states[i], labels[i].fn)
  }

  lemma {:induction false} ReachedKeepsInv(states: seq<Sys>, labels: seq<Label>, i: nat)
    requires Path(states, labels) && Guarded(states, labels) && i < |states| && Inv(states[0])
    ensures Inv(states[i])
  {
    if i > 0 {
      var s, l := states[i - 1], labels[i - 1];
      ReachedKeepsInv(states, labels, i - 1);
      assert Next(s, l, states[i - 1 + 1]);
      if l.Install? {
        InstalledExactly(s, l.k, l.fn, states[i]);
      } else {
        StepKeepsInv(s, l, states[i]);
      }
    }
  }

  /** In any interleaving of setters, starts and stops in which every install is allowed: whenever no setter is under way,
      every bridge holds the manager's callback, also one that was started while a setter ran. */
  lemma NobodyMissesTheCallback(states: seq<Sys>, labels: seq<Label>, i: nat)
    requires Run(states, labels) && Guarded(states, labels) && i < |states| && states[i].setters == map[]
    ensures forall b | b in states[i].bridges :: b in states[i].held && states[i].held[b] == states[i].fn
  {
    ReachedKeepsInv(states, labels, i);
  }

  // ---- the guard is exactly right ----

  /** However the setters under way go on, with starts and stops but without another install: once all have returned every
      bridge holds the manager's callback. */
  ghost predicate SettlesRight(s: Sys) {
    forall states: seq<Sys>, labels: seq<Label> |
      Path(states, labels) && states[0] == s && NoInstall(labels) && states[|labels|].setters == map[] ::
      var t := states[|labels|]; forall b | b in t.bridges :: b in t.held && t.held[b] == t.fn
  }

  lemma PathConcat(states: seq<Sys>, labels: seq<Label>, states2: seq<Sys>, labels2: seq<Label>) returns (all: seq<Sys>)
    requires Path(states, labels) && Path(states2, labels2) && states[|labels|] == states2[0]
    requires NoInstall(labels) && NoInstall(labels2)
    ensures Path(all, labels + labels2) && NoInstall(labels + labels2)
    ensures all[0] == states[0] && all[|labels + labels2|] == states2[|labels2|]
  {
    all := states + states2[1..];
    var both := labels + labels2;
    forall i | 0 <= i < |both| ensures Next(all[i], both[i], all[i + 1]) && !both[i].Install? {
      if i < |labels| {
        assert both[i] == labels[i] && all[i] == states[i] && all[i + 1] == states[i + 1];
      } else {
        var k := i - |labels|;
        assert Next(states2[k], labels2[k], states2[k + 1]);
        assert both[i] == labels2[k] && all[i] == states2[k] && all[i + 1] == states2[k + 1];
      }
    }
  }

  lemma OneStep(s: Sys, l: Label, t: Sys) returns (states: seq<Sys>, labels: seq<Label>)
    requires Next(s, l, t) && !l.Install?
    ensures Path(states, labels) && NoInstall(labels) && states[0] == s && states[|labels|] == t
  {
    states, labels := [s, t], [l];
  }

  /** What a continuation of setters alone leaves alone. */
  ghost predicate SameManager(s: Sys, t: Sys) { t.fn == s.fn && t.bridges == s.bridges }

  ghost predicate SameAt(s: Sys, t: Sys, b: nat) {
    (b in s.held <==> b in t.held) && (b in s.held && b in t.held ==> s.held[b] == t.held[b])
  }

  /** A setter reaches all it has to but for those it leaves. */
  lemma {:induction false} Drain(s: Sys, k: nat, leave: set<nat>) returns (states: seq<Sys>, labels: seq<Label>)
    requires k in s.setters && leave <= s.setters[k].todo
    ensures Path(states, labels) && NoInstall(labels) && states[0] == s && SameManager(s, states[|labels|])
    ensures states[|labels|].setters == s.setters[k := Setter(s.setters[k].fn, leave)]
    ensures forall b | b !in s.setters[k].todo - leave :: SameAt(s, states[|labels|], b)
    decreases |s.setters[k].todo - leave|
  {
    var left := s.setters[k].todo - leave;
    if left == {} {
      assert s.setters[k].todo == left + leave == leave;
      assert s.setters[k := Setter(s.setters[k].fn, leave)] == s.setters;
      states, labels := [s], [];
    } else {
      var b :| b in left;
      var t := s.(held := s.held[b := s.setters[k].fn], setters := s.setters[k := Setter(s.setters[k].fn, s.setters[k].todo - {b})]);
      assert t.setters[k].todo - leave == left - {b};
      var states1, labels1 := OneStep(s, Reach(k, b), t);
      var states2, labels2 := Drain(t, k, leave);
      forall x | x !in left ensures SameAt(s, states2[|labels2|], x) {
        assert x !in t.setters[k].todo - leave && SameAt(t, states2[|labels2|], x);
      }
      states := PathConcat(states1, labels1, states2, labels2);
      labels := labels1 + labels2;
    }
  }

  /** A setter reaches all it has to and returns. */
  lemma Finish(s: Sys, k: nat) returns (states: seq<Sys>, labels: seq<Label>)
    requires k in s.setters
    ensures Path(states, labels) && NoInstall(labels) && states[0] == s && SameManager(s, states[|labels|])
    ensures states[|labels|].setters == s.setters - {k}
    ensures forall b | b !in s.setters[k].todo :: SameAt(s, states[|labels|], b)
  {
    var states1, labels1 := Drain(s, k, {});
    assert s.setters[k].todo - {} == s.setters[k].todo;
    var t := states1[|labels1|];
    var u := t.(setters := t.setters - {k});
    assert u.setters == s.setters - {k};
    var states2, labels2 := OneStep(t, Return(k), u);
    states := PathConcat(states1, labels1, states2, labels2);
    labels := labels1 + labels2;
  }

  function Only(setters: map<nat, Setter>, keep: set<nat>): map<nat, Setter> { setters - (setters.Keys - keep) }

  lemma OnlyWithout(setters: map<nat, Setter>, keep: set<nat>, k: nat)
    requires k in setters.Keys - keep
    ensures Only(setters - {k}, keep) == Only(setters, keep)
    ensures |(setters - {k}).Keys - keep| < |setters.Keys - keep|
  {
    assert (setters - {k}).Keys - keep == setters.Keys - keep - {k};
  }

  lemma FinishOne(s: Sys, keep: set<nat>) returns (states: seq<Sys>, labels: seq<Label>)
    requires s.setters.Keys - keep != {}
    ensures Path(states, labels) && NoInstall(labels) && states[0] == s && SameManager(s, states[|labels|])
    ensures Only(states[|labels|].setters, keep) == Only(s.setters, keep)
    ensures |states[|labels|].setters.Keys - keep| < |s.setters.Keys - keep|
    ensures forall b | !Awaited(s, b) :: SameAt(s, states[|labels|], b) && !Awaited(states[|labels|], b)
  {
    var k :| k in s.setters.Keys - keep;
    states, labels := Finish(s, k);
    OnlyWithout(s.setters, keep, k);
    forall b | !Awaited(s, b) ensures b !in s.setters[k].todo && !Awaited(states[|labels|], b) {
    }
  }

  /** All setters but those kept return, one after another. */
  lemma {:induction false} FinishOthers(s: Sys, keep: set<nat>) returns (states: seq<Sys>, labels: seq<Label>)
    ensures Path(states, labels) && NoInstall(labels) && states[0] == s && SameManager(s, states[|labels|])
    ensures states[|labels|].setters == Only(s.setters, keep)
    ensures forall b | !Awaited(s, b) :: SameAt(s, states[|labels|], b)
    decreases |s.setters.Keys - keep|
  {
    if s.setters.Keys - keep == {} {
      assert Only(s.setters, keep) == s.setters;
      states, labels := [s], [];
    } else {
      var states1, labels1 := FinishOne(s, keep);
      var states2, labels2 := FinishOthers(states1[|labels1|], keep);
      states := PathConcat(states1, labels1, states2, labels2);
      labels := labels1 + labels2;
    }
  }

  /** The older setter last: it leaves its bridge with its own callback. */
  lemma LastWord(s: Sys, j: nat, b: nat) returns (states: seq<Sys>, labels: seq<Label>)
    requires j in s.setters && b in s.setters[j].todo
    ensures Path(states, labels) && NoInstall(labels) && states[0] == s && SameManager(s, states[|labels|])
    ensures states[|labels|].setters == map[]
    ensures b in states[|labels|].held && states[|labels|].held[b] == s.setters[j].fn
  {
    var states1, labels1 := FinishOthers(s, {j});
    var t := states1[|labels1|];
    var states2, labels2 := Drain(t, j, {b});
    var u := states2[|labels2|];
    var v := u.(held := u.held[b := u.setters[j].fn], setters := u.setters[j := Setter(u.setters[j].fn, {b} - {b})]);
    var states3, labels3 := OneStep(u, Reach(j, b), v);
    var x := v.(setters := v.setters - {j});
    assert x.setters == map[];
    var states4, labels4 := OneStep(v, Return(j), x);
    var statesA := PathConcat(states1, labels1, states2, labels2);
    var statesB := PathConcat(states3, labels3, states4, labels4);
    states := PathConcat(statesA, labels1 + labels2, statesB, labels3 + labels4);
    labels := labels1 + labels2 + (labels3 + labels4);
  }

  lemma RightSettlesRight(s: Sys)
    requires Inv(s)
    ensures SettlesRight(s)
  {
    forall states: seq<Sys>, labels: seq<Label> |
      Path(states, labels) && states[0] == s && NoInstall(labels) && states[|labels|].setters == map[]
      ensures var t := states[|labels|]; forall b | b in t.bridges :: b in t.held && t.held[b] == t.fn
    {
      ReachedKeepsInv(states, labels, |labels|);
    }
  }

  lemma WrongSettlesWrong(s: Sys)
    requires WellFormed(s) && !Inv(s)
    ensures !SettlesRight(s)
  {
    if j :| j in s.setters && !Agrees(s, j, s.fn) {
      var b :| b in s.setters[j].todo && b in s.bridges && s.setters[j].fn != s.fn;
      var states, labels := LastWord(s, j, b);
    } else {
      var b :| b in s.bridges && s.held[b] != s.fn && !Awaited(s, b);
      var states, labels := FinishOthers(s, {});
      assert states[|labels|].setters == map[];
      assert SameAt(s, states[|labels|], b);
    }
  }

  /** An install, at any moment of any run, settles right however the setters under way go on if and only if those that
      still have one of the manager's bridges to reach carry the same callback. */
  lemma InstallIsSafeExactly(states: seq<Sys>, labels: seq<Label>, i: nat)
    requires Run(states, labels) && i < |labels| && labels[i].Install?
    ensures SettlesRight(states[i + 1]) <==> MayInstall(states[i], labels[i].fn)
  {
    ReachedIsWellFormed(states, labels, i);
    var s, l, t := states[i], labels[i], states[i + 1];
    assert Next(s, l, t);
    InstalledExactly(s, l.k, l.fn, t);
    NextKeepsWellFormed(s, l, t);
    if Inv(t) {
      RightSettlesRight(t);
    } else {
      WrongSettlesWrong(t);
    }
  }

  lemma {:induction false} ReachedIsWellFormed(states: seq<Sys>, labels: seq<Label>, i: nat)
    requires Run(states, labels) && i < |states|
    ensures WellFormed(states[i])
  {
    if i > 0 {
      ReachedIsWellFormed(states, labels, i - 1);
      assert Next(states[i - 1], labels[i - 1], states[i - 1 + 1]);
      NextKeepsWellFormed(states[i - 1], labels[i - 1], states[i]);
    }
  }

  /** Two setters that overlap can leave a bridge with the callback of the first, for good. */
  lemma OverlappingSettersDisagree() returns (states: seq<Sys>, labels: seq<Label>)
    ensures Run(states, labels)
    ensures var s := states[|labels|];
            s.setters == map[] && s.bridges == {0} && s.fn == Some(2) && s.held == map[0 := Some(1)]
  {
    var s0 := Sys(None, {}, map[], map[]);
    var s1 := s0.(bridges := {0}, held := map[0 := None]);
    var s2 := s1.(fn := Some(1), setters := map[1 := Setter(Some(1), {0})]);
    var s3 := s2.(fn := Some(2), setters := s2.setters[2 := Setter(Some(2), {0})]);
    var s4 := s3.(held := map[0 := Some(2)], setters := s3.setters[2 := Setter(Some(2), {})]);
    var s5 := s4.(setters := s4.setters - {2});
    var s6 := s5.(held := map[0 := Some(1)], setters := s5.setters[1 := Setter(Some(1), {})]);
    var s7 := s6.(setters := s6.setters - {1});
    states := [s0, s1, s2, s3, s4, s5, s6, s7];
    labels := [Adopt(0), Install(1, Some(1)), Install(2, Some(2)), Reach(2, 0), Return(2), Reach(1, 0), Return(1)];
    assert {} + {0} == {0} && {0} - {0} == {};
    assert Next(s0, labels[0], s1);
    assert Next(s1, labels[1], s2);
    assert Next(s2, labels[2], s3);
    assert Next(s3, labels[3], s4);
    assert Next(s4, labels[4], s5);
    assert Next(s5, labels[5], s6);
    assert Next(s6, labels[6], s7);
    assert s7.setters == map[];
  }
}
