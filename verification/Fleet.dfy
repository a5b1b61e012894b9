/** Any number of AuthStorage objects over one auth.json (pkg/auth/authstorage.go, accounts.go, refresh.go), with what they
    do outside the file lock interleaved: taking the stamp before a read, adopting it after a write. Every run of them
    is a run of the process model SharedFile. */
module Fleet {
  import opened Slots
  import opened Credentials
  import opened AuthData
  import opened AuthStorage
  import opened SharedFile
  import opened RefreshTokens
  import opened Wrappers

  /** Between two calls, after a write that has not adopted its stamp, or in a load that has taken the stamp. */
  datatype Phase = Ready | Adopting | Loading(taken: nat)

  datatype Local = Local(data: Data, lastStamp: nat, loadError: bool, errors: nat, keyErrors: set<string>, phase: Phase)

  /** The objects, the file, the clock, and the refresh tokens seen so far. */
  datatype State = State(locals: map<nat, Local>, content: Content, stamp: nat, now: int, seen: set<string>)

  datatype Act =
    | Slot(p: nat, key: string, change: Option<Cred>, locks: bool)
    | Default(p: nat, provider: string, accountID: string, locks: bool)
    | Refreshing(p: nat, slot: string, granted: Option<OAuthCreds>, window: int, force: bool, locks: bool)
    | Adopt(p: nat)
    | Stat(p: nat)
    | Load(p: nat, locks: bool)
    | Clock(later: int)

  function Outcome(locks: bool): Io { if locks then Works else LockFails }

  function ViewOf(s: State, p: nat): View
    requires p in s.locals
  {
    var l := s.locals[p];
    View(l.data, l.lastStamp, l.loadError, l.errors, l.keyErrors, s.content, s.stamp)
  }

  /** A call ends with this view; if it wrote, the stamp is still to be adopted. */
  function Ended(s: State, p: nat, v: View): State
    requires p in s.locals
  {
    var wrote := v.stamp != s.stamp;
    s.(locals := s.locals[p := Local(v.data, if wrote then s.locals[p].lastStamp else v.lastStamp, v.loadError, v.errors,
                                     v.keyErrors, if wrote then Adopting else Ready)],
       content := v.content, stamp := v.stamp)
  }

  ghost predicate At(s: State, p: nat, phase: Phase) { p in s.locals && s.locals[p].phase == phase }

  ghost predicate Step(s: State, a: Act, t: State) {
    match a
    case Slot(p, key, change, locks) =>
      At(s, p, Ready) && t == Ended(s, p, WithSlot(ViewOf(s, p), key, change, Outcome(locks), [])).(seen := t.seen)
      && t.seen == s.seen + Added(s, a)
    case Default(p, provider, accountID, locks) =>
      At(s, p, Ready) && t == Ended(s, p, WithDefault(ViewOf(s, p), provider, accountID, Outcome(locks), [])).(seen := t.seen)
      && t.seen == s.seen + Added(s, a)
    case Refreshing(p, slot, granted, window, force, locks) =>
      At(s, p, Ready) && (granted.Some? ==> granted.value.refresh !in s.seen)
      && t == Ended(s, p, RefreshedView(ViewOf(s, p), slot, granted, s.now, window, force, Outcome(locks), []).0).(seen := t.seen)
      && t.seen == s.seen + Added(s, a)
    case Adopt(p) =>
      At(s, p, Adopting) && t == s.(locals := s.locals[p := s.locals[p].(lastStamp := s.stamp, phase := Ready)])
    case Stat(p) => At(s, p, Ready) && t == s.(locals := s.locals[p := s.locals[p].(phase := Loading(s.stamp))])
    case Load(p, locks) =>
      p in s.locals && s.locals[p].phase.Loading? &&
      var v := Reloaded(ViewOf(s, p), Outcome(locks), []);
      t == Ended(s, p, if locks then v.(lastStamp := s.locals[p].phase.taken) else v)
    case Clock(later) => later >= s.now && t == s.(now := later)
  }

  /** What the locked section of an act commits: one event, or none. */
  ghost function Committed(s: State, a: Act): seq<Event>
    requires s.content.Parsed?
  {
    match a
    case Slot(p, key, change, locks) =>
      if p in s.locals && locks && !s.locals[p].loadError then [Event.Wrote([key], map[key := change])] else []
    case Default(p, provider, accountID, locks) =>
      if p in s.locals && locks && !s.locals[p].loadError && Promote(s.locals[p].data, provider, accountID).Some? then
        var pr := Promote(s.locals[p].data, provider, accountID).value;
        [Event.Wrote(pr.order, pr.changes)]
      else []
    case Refreshing(p, slot, granted, window, force, locks) =>
      if locks && granted.Some? && Due(s.content.m, slot, s.now, window, force) then
        [Rotated(slot, s.content.m[slot], granted.value, s.now, window, force)]
      else []
    case _ => []
  }

  /** The tokens that come with it. */
  ghost function Added(s: State, a: Act): set<string> {
    if !s.content.Parsed? || Committed(s, a) == [] then {}
    else
      match Committed(s, a)[0]
      case Wrote(_, changes) => ChangeTokens(changes)
      case Rotated(_, _, granted, _, _, _) => {granted.refresh}
  }

  ghost predicate Runs(states: seq<State>, acts: seq<Act>) {
    && |states| == |acts| + 1 && states[0].content.Parsed? && states[0].seen == Tokens(states[0].content.m)
    && forall i | 0 <= i < |acts| :: Step(states[i], acts[i], states[i + 1])
  }

  // ---- each act is a section of the process model ----

  /** The process model stands where the objects stand: nobody is in the lock, and the file is the same. */
  ghost predicate Stands(s: State, m: Sys) {
    Calm(m) && s.content == Parsed(m.disk) && m.now == s.now && m.issued == s.seen
  }

  lemma SlotFile(s: State, a: Act, t: State)
    requires a.Slot? && Step(s, a, t) && s.content.Parsed?
    ensures t.now == s.now && t.seen == s.seen + Added(s, a)
    ensures if Committed(s, a) == [] then t.content == s.content
            else && WellFormedTx(Batch([a.key], map[a.key := a.change]))
                 && t.content == Parsed(ApplyBatch(s.content.m, [a.key], map[a.key := a.change]))
  {
  }

  lemma DefaultFile(s: State, a: Act, t: State)
    requires a.Default? && Step(s, a, t) && s.content.Parsed?
    ensures t.now == s.now && t.seen == s.seen + Added(s, a)
    ensures if Committed(s, a) == [] then t.content == s.content
            else
              var pr := Promote(s.locals[a.p].data, a.provider, a.accountID).value;
              && WellFormedTx(Batch(pr.order, pr.changes))
              && t.content == Parsed(ApplyBatch(s.content.m, pr.order, pr.changes))
  {
    if Promote(s.locals[a.p].data, a.provider, a.accountID).Some? {
      BatchIsPromotion(s.locals[a.p].data, a.provider, a.accountID);
    }
  }

  lemma RefreshFile(s: State, a: Act, t: State)
    requires a.Refreshing? && Step(s, a, t) && s.content.Parsed?
    ensures t.now == s.now && t.seen == s.seen + Added(s, a)
    ensures if Committed(s, a) == [] then t.content == s.content
            else
              && Due(s.content.m, a.slot, s.now, a.window, a.force)
              && t.content == Parsed(s.content.m[a.slot := Refreshed(s.content.m[a.slot], a.granted.value)])
  {
  }

  lemma WriteIsASection(s: State, m: Sys, p: nat, order: seq<string>, changes: Changes, t: State)
      returns (states: seq<Sys>, labels: seq<Label>)
    requires Stands(s, m) && WellFormedTx(Batch(order, changes))
    requires t.content == Parsed(ApplyBatch(m.disk, order, changes)) && t.now == s.now && t.seen == s.seen + ChangeTokens(changes)
    ensures Path(states, labels) && states[0] == m && Stands(t, states[|labels|])
    ensures states[|labels|].hist == m.hist + [Event.Wrote(order, changes)]
  {
    states, labels := BatchSection(m, p, order, changes);
  }

  lemma RefreshIsASection(s: State, m: Sys, a: Act, t: State) returns (states: seq<Sys>, labels: seq<Label>)
    requires Stands(s, m) && a.Refreshing? && Step(s, a, t) && Committed(s, a) != []
    ensures Path(states, labels) && states[0] == m && Stands(t, states[|labels|])
    ensures states[|labels|].hist == m.hist + Committed(s, a)
  {
    RefreshFile(s, a, t);
    states, labels := RefreshSection(m, a.p, a.slot, a.window, a.force, a.granted.value);
  }

  lemma OtherFile(s: State, a: Act, t: State)
    requires (a.Adopt? || a.Stat? || a.Load?) && Step(s, a, t)
    ensures t.content == s.content && t.now == s.now && t.seen == s.seen
  {
  }

  /** Each act is one section of the process model, or one tick of its clock, or nothing. */
  lemma ActIsASection(s: State, m: Sys, a: Act, t: State) returns (states: seq<Sys>, labels: seq<Label>)
    requires Stands(s, m) && Step(s, a, t)
    ensures Path(states, labels) && states[0] == m && Stands(t, states[|labels|])
    ensures states[|labels|].hist == m.hist + Committed(s, a)
  {
    states, labels := [m], [];
    match a
    case Slot(p, key, change, _) =>
      SlotFile(s, a, t);
      if Committed(s, a) != [] {
        states, labels := WriteIsASection(s, m, p, [key], map[key := change], t);
      }
    case Default(p, provider, accountID, _) =>
      DefaultFile(s, a, t);
      if Committed(s, a) != [] {
        var pr := Promote(s.locals[p].data, provider, accountID).value;
        states, labels := WriteIsASection(s, m, p, pr.order, pr.changes, t);
      }
    case Refreshing(_, _, _, _, _, _) =>
      RefreshFile(s, a, t);
      if Committed(s, a) != [] {
        states, labels := RefreshIsASection(s, m, a, t);
      }
    case Clock(later) =>
      states, labels := [m, m.(now := later)], [Tick(later)];
      assert forall q :: PcOf(m.(now := later), q) == PcOf(m, q);
    case _ => OtherFile(s, a, t);
  }

  // ---- runs ----

  /** All that the first n acts committed. */
  ghost function History(states: seq<State>, acts: seq<Act>, n: nat): seq<Event>
    requires n <= |acts| && n < |states|
  {
    if n == 0 then []
    else
      History(states, acts, n - 1) + if states[n - 1].content.Parsed? then Committed(states[n - 1], acts[n - 1]) else []
  }

  /** Refinement: for every interleaving of the objects there is a run of the process model with the same file, the same
      tokens and the same history of writes. What is proved of every run of SharedFile therefore holds of them. */
  lemma {:induction false} FleetRefines(states: seq<State>, acts: seq<Act>, n: nat)
      returns (model: seq<Sys>, labels: seq<Label>)
    requires Runs(states, acts) && n <= |acts|
    ensures SharedFile.Run(model, labels) && model[0].disk == states[0].content.m
    ensures Stands(states[n], model[|labels|]) && model[|labels|].hist == History(states, acts, n)
  {
    if n == 0 {
      model, labels := [Sys(states[0].content.m, None, map[], states[0].now, states[0].seen, [])], [];
    } else {
      var before, moves := FleetRefines(states, acts, n - 1);
      assert Step(states[n - 1], acts[n - 1], states[n - 1 + 1]);
      var more, moves2 := ActIsASection(states[n - 1], before[|moves|], acts[n - 1], states[n]);
      model := PathConcat(before, moves, more, moves2);
      labels := moves + moves2;
    }
  }

  /** For one: the file holds in each slot what the last committed write naming it left there, and successive rotations of
      a slot spend what the one before stored, however stale each object's cache and stamp are. */
  lemma FleetHoldsLastWrite(states: seq<State>, acts: seq<Act>, n: nat, key: string)
    requires Runs(states, acts) && n <= |acts|
    ensures states[n].content.Parsed?
    ensures var hist := History(states, acts, n);
            var k := LastNaming(hist, key);
            if k == 0 then SameAt(states[0].content.m, states[n].content.m, key)
            else LeftBy(states[n].content.m, hist[k - 1], key)
  {
    var model, labels := FleetRefines(states, acts, n);
    DiskHoldsLastWrite(model, labels, |labels|, key);
  }

  lemma FleetChains(states: seq<State>, acts: seq<Act>, n: nat, i: nat, j: nat)
    requires Runs(states, acts) && n <= |acts|
    requires var hist := History(states, acts, n);
             && i < j < |hist| && hist[i].Rotated? && hist[j].Rotated? && hist[i].slot == hist[j].slot
             && forall k | i < k < j :: !Names(hist[k], hist[j].slot)
    ensures History(states, acts, n)[j].before.refresh == History(states, acts, n)[i].granted.refresh
  {
    var model, labels := FleetRefines(states, acts, n);
    GrantsFormAChain(model, labels, |labels|, i, j);
  }

  // ---- tokens ----

  /** A stored OAuth credential comes straight from a grant, and a promotion moves what the file still holds. */
  ghost predicate HonestAct(s: State, a: Act) {
    match a
    case Slot(_, _, Some(cred), _) => cred.kind == OAuth && cred.refresh != "" ==> cred.refresh !in s.seen
    case Default(p, provider, accountID, _) =>
      IsProvider(provider) &&
      (p in s.locals && s.content.Parsed? ==>
         && SameAt(s.locals[p].data, s.content.m, SlotKey(provider, accountID))
         && SameAt(s.locals[p].data, s.content.m, provider))
    case _ => true
  }

  ghost predicate Safe(m: Sys) { Calm(m) && Seen(m) && Sound(m.disk, Spent(m.hist)) }

  lemma CleanActIsSafe(s: State, m: Sys, p: nat, order: seq<string>, changes: Changes, t: State) returns (m': Sys)
    requires Stands(s, m) && Safe(m) && WellFormedTx(Batch(order, changes)) && Clean(m.disk, Spent(m.hist), order, changes)
    requires t.content == Parsed(ApplyBatch(m.disk, order, changes)) && t.now == s.now && t.seen == s.seen + ChangeTokens(changes)
    ensures Stands(t, m') && Safe(m') && m'.hist == m.hist + [Event.Wrote(order, changes)]
  {
    var states, labels := WriteIsASection(s, m, p, order, changes, t);
    m' := states[|labels|];
    SpentSnoc(m.hist, Event.Wrote(order, changes));
    BatchSoundExactly(m.disk, Spent(m.hist), order, changes);
    BatchTokens(m.disk, order, changes);
  }

  lemma GrantIsSafe(s: State, m: Sys, a: Act, t: State) returns (m': Sys)
    requires Stands(s, m) && Safe(m) && a.Refreshing? && Step(s, a, t) && Committed(s, a) != []
    ensures Stands(t, m') && Safe(m') && m'.hist == m.hist + Committed(s, a)
  {
    RefreshFile(s, a, t);
    var states, labels := RefreshSection(m, a.p, a.slot, a.window, a.force, a.granted.value);
    CalmInv(m);
    RefreshesKeepTokens(states, labels, |labels|);
    m' := states[|labels|];
  }

  lemma HonestActIsSafe(s: State, m: Sys, a: Act, t: State) returns (m': Sys)
    requires Stands(s, m) && Safe(m) && Step(s, a, t) && HonestAct(s, a)
    ensures Stands(t, m') && Safe(m') && m'.hist == m.hist + Committed(s, a)
  {
    m' := m;
    match a
    case Slot(p, key, change, _) =>
      SlotFile(s, a, t);
      if Committed(s, a) != [] {
        if change.Some? {
          MintedSetIsClean(m.disk, Spent(m.hist), key, change.value);
        } else {
          RemovalIsClean(m.disk, Spent(m.hist), key);
        }
        m' := CleanActIsSafe(s, m, p, [key], map[key := change], t);
      }
    case Default(p, provider, accountID, _) =>
      DefaultFile(s, a, t);
      if Committed(s, a) != [] {
        var cache := s.locals[p].data;
        var pr := Promote(cache, provider, accountID).value;
        CheckedPromotionIsClean(cache, m.disk, Spent(m.hist), provider, accountID);
        m' := CleanActIsSafe(s, m, p, pr.order, pr.changes, t);
      }
    case Refreshing(_, _, _, _, _, _) =>
      RefreshFile(s, a, t);
      if Committed(s, a) != [] {
        m' := GrantIsSafe(s, m, a, t);
      }
    case Clock(later) =>
      m' := m.(now := later);
      assert forall q :: PcOf(m', q) == PcOf(m, q);
    case _ => OtherFile(s, a, t);
  }

  lemma {:induction false} HonestRunIsSafe(states: seq<State>, acts: seq<Act>, n: nat) returns (m: Sys)
    requires Runs(states, acts) && n <= |acts| && Sound(states[0].content.m, {})
    requires forall i | 0 <= i < |acts| :: HonestAct(states[i], acts[i])
    ensures Stands(states[n], m) && Safe(m) && m.hist == History(states, acts, n)
  {
    if n == 0 {
      m := Sys(states[0].content.m, None, map[], states[0].now, states[0].seen, []);
      assert Spent([]) == {};
    } else {
      var before := HonestRunIsSafe(states, acts, n - 1);
      assert Step(states[n - 1], acts[n - 1], states[n - 1 + 1]) && HonestAct(states[n - 1], acts[n - 1]);
      m := HonestActIsSafe(states[n - 1], before, acts[n - 1], states[n]);
    }
  }

  /** In any interleaving of such objects no refresh token is spent twice, and the file never holds a spent one. */
  lemma FleetNeverRespends(states: seq<State>, acts: seq<Act>, n: nat)
    requires Runs(states, acts) && n <= |acts| && Sound(states[0].content.m, {})
    requires forall i | 0 <= i < |acts| :: HonestAct(states[i], acts[i])
    ensures NoRepeat(History(states, acts, n))
    ensures states[n].content.Parsed? && Sound(states[n].content.m, Spent(History(states, acts, n)))
  {
    var m := HonestRunIsSafe(states, acts, n);
  }

  // ---- tokens presented ----

  /** The refresh token an act shows to the provider, whatever comes of it. */
  function Presented(s: State, a: Act): seq<string> {
    if a.Refreshing? && a.locks && s.content.Parsed? && Due(s.content.m, a.slot, s.now, a.window, a.force) then
      [s.content.m[a.slot].refresh]
    else []
  }

  lemma PresentedIsTheObjects(s: State, a: Act)
    requires a.Refreshing? && a.p in s.locals && s.content.Parsed?
    ensures RefreshedView(ViewOf(s, a.p), a.slot, a.granted, s.now, a.window, a.force, Outcome(a.locks), []).1.presented ==
            Presented(s, a)
  {
  }

  lemma {:induction false} HistoryGrows(states: seq<State>, acts: seq<Act>, m: nat, n: nat)
    requires m <= n <= |acts| && n < |states|
    ensures History(states, acts, m) <= History(states, acts, n)
    decreases n - m
  {
    if m < n {
      HistoryGrows(states, acts, m, n - 1);
    }
  }

  lemma CommittedIsSpent(states: seq<State>, acts: seq<Act>, i: nat, n: nat, token: string)
    requires i < n <= |acts| && n < |states| && states[i].content.Parsed? && Committed(states[i], acts[i]) != []
    requires Presented(states[i], acts[i]) == [token] && token != ""
    ensures token in Spent(History(states, acts, n))
  {
    var hist, k := History(states, acts, n), |History(states, acts, i)|;
    HistoryGrows(states, acts, i + 1, n);
    assert History(states, acts, i + 1) == History(states, acts, i) + Committed(states[i], acts[i]);
    assert hist[k] == Committed(states[i], acts[i])[0] && hist[k].Rotated? && hist[k].before.refresh == token;
  }

  /** In any interleaving of honest objects a token is presented a second time only if nothing came of the earlier
      presentation: the provider's grant failed, and the token is still the file's. */
  lemma PresentedTwiceOnlyOnFailure(states: seq<State>, acts: seq<Act>, i: nat, j: nat, token: string)
    requires Runs(states, acts) && i < j < |acts| && Sound(states[0].content.m, {})
    requires forall k | 0 <= k < |acts| :: HonestAct(states[k], acts[k])
    requires Presented(states[i], acts[i]) == [token] == Presented(states[j], acts[j]) && token != ""
    ensures acts[i].granted == None && Committed(states[i], acts[i]) == []
  {
    if Committed(states[i], acts[i]) != [] {
      CommittedIsSpent(states, acts, i, j, token);
      FleetNeverRespends(states, acts, j);
      assert Spendable(states[j].content.m, acts[j].slot);
    }
  }

  /** And exactly then: after a presentation some forced refresh would present the token again if and only if the grant
      failed. */
  lemma PresentedAgainExactly(states: seq<State>, acts: seq<Act>, i: nat, token: string)
    requires Runs(states, acts) && i < |acts| && Sound(states[0].content.m, {})
    requires forall k | 0 <= k < |acts| :: HonestAct(states[k], acts[k])
    requires Presented(states[i], acts[i]) == [token] && token != ""
    ensures acts[i].granted == None <==>
            exists again: Act :: again.Refreshing? && again.force && Presented(states[i + 1], again) == [token]
  {
    assert Step(states[i], acts[i], states[i + 1]);
    RefreshFile(states[i], acts[i], states[i + 1]);
    if acts[i].granted == None {
      var again := acts[i].(force := true);
      assert Presented(states[i + 1], again) == [token];
    } else {
      CommittedIsSpent(states, acts, i, i + 1, token);
      FleetNeverRespends(states, acts, i + 1);
      forall again: Act | again.Refreshing? && again.force ensures Presented(states[i + 1], again) != [token] {
        if Presented(states[i + 1], again) == [token] {
          assert Spendable(states[i + 1].content.m, again.slot);
        }
      }
    }
  }
}
