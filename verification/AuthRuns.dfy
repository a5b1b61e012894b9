/** Runs of one AuthStorage against the shared file (pkg/auth/authstorage.go): loading never goes stale unnoticed,
    a single process keeps cache and file equal, and its locked sections are the events of SharedFile. */
module AuthRuns {
  import opened Slots
  import opened Credentials
  import opened AuthData
  import opened AuthPolicy
  import opened AuthStorage
  import opened Wrappers
  import SharedFile

  // ---- a process that only loads ----

  datatype LoadEvent =
    | Foreign(c: Content)
    | Load(io: Io, between: seq<Content>)
    | LoadIfStale(before: seq<Content>, io: Io, between: seq<Content>)

  function AfterLoad(st: View, e: LoadEvent): View {
    match e
    case Foreign(c) => Land(st, [c])
    case Load(io, between) => Reloaded(st, io, between)
    case LoadIfStale(before, io, between) => ReloadedIfStale(st, before, io, between)
  }

  function AfterLoads(st: View, events: seq<LoadEvent>): View {
    if |events| == 0 then st else AfterLoad(AfterLoads(st, events[..|events| - 1]), events[|events| - 1])
  }

  /** An unchanged stamp means nothing was missed. */
  ghost predicate Current(st: View) {
    && st.lastStamp <= st.stamp
    && (st.lastStamp == st.stamp && st.content.Parsed? ==> st.data == st.content.m)
  }

  /** Whatever other processes write and whenever it lands, as long as the process only loads. */
  lemma {:induction false} LoadersNeverMiss(st: View, events: seq<LoadEvent>)
    requires Current(st)
    ensures Current(AfterLoads(st, events))
  {
    if |events| > 0 {
      LoadersNeverMiss(st, events[..|events| - 1]);
    }
  }

  /** A check right after the run catches up: with no write and no failure in between, the cache is the file. */
  lemma StaleCheckCatchesUp(st: View, events: seq<LoadEvent>)
    requires Current(st)
    ensures var seen := ReloadedIfStale(AfterLoads(st, events), [], Works, []);
            && seen.lastStamp == seen.stamp
            && (seen.content.Parsed? ==> seen.data == seen.content.m)
            && (seen.content.Corrupt? ==> seen.data == AfterLoads(st, events).data)
  {
    LoadersNeverMiss(st, events);
  }

  /** What the locked read of a load finds in the file, if the load gets to it. */
  function ReadBy(st: View, e: LoadEvent): Option<Content> {
    match e
    case Foreign(_) => None
    case Load(io, between) => if io.LockFails? then None else Some(if between == [] then st.content else between[|between| - 1])
    case LoadIfStale(before, io, between) =>
      if st.stamp == st.lastStamp || io.LockFails? then None
      else if between != [] then Some(between[|between| - 1])
      else Some(if before == [] then st.content else before[|before| - 1])
  }

  function LastParseableRead(st: View, events: seq<LoadEvent>): Data {
    if |events| == 0 then st.data
    else
      var front := events[..|events| - 1];
      match ReadBy(AfterLoads(st, front), events[|events| - 1])
      case Some(Parsed(m)) => m
      case _ => LastParseableRead(st, front)
  }

  /** The cache is always the last parseable content a load found. */
  lemma {:induction false} CacheIsLastParseableRead(st: View, events: seq<LoadEvent>)
    ensures AfterLoads(st, events).data == LastParseableRead(st, events)
  {
    if |events| > 0 {
      CacheIsLastParseableRead(st, events[..|events| - 1]);
    }
  }

  /** A corrupt read never changes the cached map; nor does a failed one. */
  lemma CorruptReadKeepsCache(st: View, io: Io, between: seq<Content>)
    ensures Reloaded(st, io, between).data ==
            if io.LockFails? || Land(st, between).content.Corrupt? then st.data else Land(st, between).content.m
  {
  }

  /** The refresh path has no such care: on an unreadable file it empties the cache. */
  lemma CorruptRefreshEmptiesCache(st: View, slot: string, granted: Option<OAuthCreds>, now: int, window: int,
                                   force: bool, io: Io, late: seq<Content>)
    requires st.content.Corrupt? && !io.LockFails?
    ensures var r := RefreshedView(st, slot, granted, now, window, force, io, late);
            r.0.data == map[] && r.0.content == st.content && r.1 == Attempt(NotFound, [])
  {
  }

  // ---- writers adopt the stamp after unlocking ----

  ghost predicate InSync(st: View) {
    !st.loadError && st.content == Parsed(st.data) && st.lastStamp == st.stamp
  }

  /** After a successful write the stamps agree, so the next staleness check does nothing. It misses a write of another
      process, and goes on with a cache that is not the file, exactly when one slipped in between unlocking and taking
      the stamp, is readable, and left something else. */
  lemma SetAdoptsStampExactly(st: View, key: string, change: Option<Cred>, late: seq<Content>)
    requires InSync(st)
    ensures var after := WithSlot(st, key, change, Works, late);
            && ReloadedIfStale(after, [], Works, []) == after
            && (after.content.Parsed? && after.content.m != after.data <==>
                  |late| > 0 && late[|late| - 1].Parsed? && late[|late| - 1].m != ApplyOne(st.data, key, change))
  {
    OneChange(st.data, key, change);
  }

  lemma OneChange(d: Data, key: string, change: Option<Cred>)
    ensures ApplyBatch(d, [key], map[key := change]) == ApplyOne(d, key, change)
  {
    assert [key][..0] == [];
    assert ApplyBatch(d, [], map[key := change]) == d;
  }

  // ---- one process alone ----

  /** Undisturbed, every writer leaves file and cache equal. */
  lemma SetStaysInSync(st: View, key: string, change: Option<Cred>)
    requires InSync(st)
    ensures var after := WithSlot(st, key, change, Works, []);
            InSync(after) && after.data == ApplyOne(st.data, key, change)
  {
    OneChange(st.data, key, change);
  }

  lemma DefaultStaysInSync(st: View, provider: string, accountID: string)
    requires InSync(st)
    ensures var after := WithDefault(st, provider, accountID, Works, []);
            && InSync(after)
            && after.data == match Promote(st.data, provider, accountID) case None => st.data case Some(p) => p.data
  {
    if Promote(st.data, provider, accountID).Some? {
      BatchIsPromotion(st.data, provider, accountID);
    }
  }

  lemma RefreshStaysInSync(st: View, slot: string, granted: Option<OAuthCreds>, now: int, window: int, force: bool)
    requires InSync(st)
    ensures InSync(RefreshedView(st, slot, granted, now, window, force, Works, []).0)
  {
  }

  /** What a call does to the whole state when nothing disturbs it. */
  ghost function Undisturbed(st: View, op: Op): View {
    match op
    case Login(_, creds, _, slot) => WithSlot(st, slot, Some(LoginCred(creds)), Works, [])
    case Store(p, name, cred) => WithSlot(st, StoreSlot(st.data, p, name), Some(cred.(title := name)), Works, [])
    case SetDefault(p, a) => WithDefault(st, p, a, Works, [])
    case Logout(key) => LoggedOut(st, key, Works, [], Works, []).0
  }

  /** Each call is a step of the policy runs, on the cache and on the file alike. */
  lemma CallsArePolicySteps(st: View, op: Op)
    requires InSync(st)
    requires op.Login? ==> Assigned(st.data, op.provider, op.creds, op.opts, op.slot)
    ensures InSync(Undisturbed(st, op)) && Step(st.data, op, Undisturbed(st, op).data)
  {
    match op
    case Login(_, creds, _, slot) => SetStaysInSync(st, slot, Some(LoginCred(creds)));
    case Store(p, name, cred) => SetStaysInSync(st, StoreSlot(st.data, p, name), Some(cred.(title := name)));
    case SetDefault(p, a) => DefaultStaysInSync(st, p, a);
    case Logout(key) =>
      SetStaysInSync(st, key, None);
      var removed := WithSlot(st, key, None, Works, []);
      var rest := Accounts(removed.data, BaseOf(key));
      if |rest| == 1 {
        DefaultStaysInSync(removed, BaseOf(key), AccountOf(Only(rest)));
      }
  }

  /** So the file itself keeps a default for every provider, over any run of safe calls. */
  lemma {:induction false} FileKeepsDefaults(states: seq<View>, ops: seq<Op>)
    requires |states| == |ops| + 1 && InSync(states[0])
    requires WellFormed(states[0].data) && KeepsDefaults(states[0].data)
    requires forall i | 0 <= i < |ops| ::
               && states[i + 1] == Undisturbed(states[i], ops[i]) && Sensible(ops[i]) && Safe(states[i].data, ops[i])
               && (ops[i].Login? ==> Assigned(states[i].data, ops[i].provider, ops[i].creds, ops[i].opts, ops[i].slot))
    ensures forall i | 0 <= i < |states| :: states[i].content.Parsed? && KeepsDefaults(states[i].content.m)
    ensures InSync(states[|ops|]) && WellFormed(states[|ops|].data)
  {
    if |ops| > 0 {
      var n := |ops| - 1;
      var before := states[..n + 1];
      FileKeepsDefaults(before, ops[..n]);
      assert before[n] == states[n];
      CallsArePolicySteps(states[n], ops[n]);
      StepKeepsExactly(states[n].data, ops[n], states[n + 1].data);
      forall i | 0 <= i < |states| ensures states[i].content.Parsed? && KeepsDefaults(states[i].content.m) {
        if i <= n {
          assert before[i] == states[i];
        }
      }
    }
  }

  // ---- the locked sections are the committed events of SharedFile ----

  /** Whatever the I/O does and whoever writes later: a refresh presents the token of the process model's section, and
      commits its event, exactly when that section does; then the later writes land on top. */
  lemma RefreshIsAnEvent(st: View, slot: string, granted: Option<OAuthCreds>, now: int, window: int, force: bool,
                         io: Io, late: seq<Content>)
    requires st.content.Parsed?
    ensures var d := st.content.m;
            var (after, attempt) := RefreshedView(st, slot, granted, now, window, force, io, late);
            var due := !io.LockFails? && SharedFile.Wants(SharedFile.Refresh(slot, window, force), d, now);
            && attempt.presented == (if due then [d[slot].refresh] else [])
            && (attempt.result.Wrote? <==> due && granted.Some? && io.Works?)
            && (if attempt.result.Wrote? then
                  var event := SharedFile.Rotated(slot, d[slot], granted.value, now, window, force);
                  after.content == Land(st.(content := Parsed(SharedFile.Commit(d, event))), late).content
                else after.content == if due && granted.Some? then io.left else st.content)
  {
  }

  lemma PersistIsAnEvent(st: View, order: seq<string>, changes: Changes, io: Io, late: seq<Content>)
    requires st.content.Parsed? && forall i | 0 <= i < |order| :: order[i] in changes
    ensures Persisted(st, order, changes, io, late).content ==
            if st.loadError || io.LockFails? then st.content
            else if io.WriteFails? then io.left
            else Land(st.(content := Parsed(SharedFile.Commit(st.content.m, SharedFile.Wrote(order, changes)))), late).content
  {
  }

  /** A write of this process and the writes of others before it adopts the stamp come apart: it writes, they write, it
      adopts. So do the two halves of a load. */
  function Adopted(st: View): View { st.(lastStamp := st.stamp) }

  lemma AdoptionComesLater(st: View, order: seq<string>, changes: Changes, late: seq<Content>)
    requires !st.loadError && forall i | 0 <= i < |order| :: order[i] in changes
    ensures Persisted(st, order, changes, Works, late) == Adopted(Land(Persisted(st, order, changes, Works, []), late))
  {
  }

  lemma RefreshAdoptionComesLater(st: View, slot: string, granted: Option<OAuthCreds>, now: int, window: int, force: bool,
                                  late: seq<Content>)
    requires RefreshedView(st, slot, granted, now, window, force, Works, []).1.result.Wrote?
    ensures RefreshedView(st, slot, granted, now, window, force, Works, late) ==
            (Adopted(Land(RefreshedView(st, slot, granted, now, window, force, Works, []).0, late)),
             RefreshedView(st, slot, granted, now, window, force, Works, []).1)
  {
  }

  lemma ReadComesLater(st: View, io: Io, between: seq<Content>)
    ensures Reloaded(st, io, between) ==
            Reloaded(Land(st, between), io, []).(lastStamp := if io.LockFails? then st.lastStamp else st.stamp)
  {
  }
}
