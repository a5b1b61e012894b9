/** Any number of processes over one auth.json (pkg/auth/refresh.go, authstorage.go): each locked section is
    acquire, read, decide, grant, write, release, and sections of different processes interleave freely. */
module SharedFile {
  import opened Slots
  import opened Credentials
  import opened AuthData
  import opened Wrappers

  /** What a process does under the lock. */
  datatype Tx =
    | Batch(order: seq<string>, changes: Changes)
    | Refresh(slot: string, window: int, force: bool)

  /** Where a process is; `seen` is its own copy of the file, from which it later writes. */
  datatype PC =
    | Idle
    | Wanting(tx: Tx)
    | Locked(tx: Tx)
    | Read(tx: Tx, seen: Data)
    | Granted(tx: Tx, seen: Data, at: int, granted: OAuthCreds)
    | Finished

  /** A committed write. */
  datatype Event =
    | Wrote(order: seq<string>, changes: Changes)
    | Rotated(slot: string, before: Cred, granted: OAuthCreds, at: int, window: int, force: bool)

  datatype Sys = Sys(disk: Data, holder: Option<nat>, procs: map<nat, PC>, now: int, issued: set<string>,
                     hist: seq<Event>)

  function PcOf(s: Sys, p: nat): PC { if p in s.procs then s.procs[p] else Idle }

  ghost predicate WellFormedTx(tx: Tx) {
    tx.Batch? ==> forall i | 0 <= i < |tx.order| :: tx.order[i] in tx.changes
  }

  function Tokens(d: Data): set<string> { set key | key in d :: d[key].refresh }

  function ChangeTokens(changes: Changes): set<string> {
    set key | key in changes && changes[key].Some? :: changes[key].value.refresh
  }

  // ---- steps ----

  datatype Label =
    | Begin(p: nat, tx: Tx)
    | Acquire(p: nat)
    | ReadFile(p: nat)
    | Grant(p: nat, granted: OAuthCreds)
    | Write(p: nat)
    | Release(p: nat)
    | Tick(later: int)

  /** Whether refreshOAuthLocked asks the provider, on the credential read under the lock. */
  predicate Wants(tx: Tx, seen: Data, now: int) {
    tx.Refresh? && Due(seen, tx.slot, now, tx.window, tx.force)
  }

  /** One atomic step of one process. A provider's refresh token is new on every grant. */
  ghost predicate Next(s: Sys, l: Label, t: Sys) {
    match l
    case Begin(p, tx) => PcOf(s, p) == Idle && WellFormedTx(tx) && t == s.(procs := s.procs[p := Wanting(tx)])
    case Acquire(p) =>
      PcOf(s, p).Wanting? && s.holder == None &&
      t == s.(procs := s.procs[p := Locked(PcOf(s, p).tx)], holder := Some(p))
    case ReadFile(p) =>
      PcOf(s, p).Locked? && t == s.(procs := s.procs[p := Read(PcOf(s, p).tx, s.disk)])
    case Grant(p, granted) =>
      PcOf(s, p).Read? && Wants(PcOf(s, p).tx, PcOf(s, p).seen, s.now) && granted.refresh !in s.issued &&
      t == s.(procs := s.procs[p := Granted(PcOf(s, p).tx, PcOf(s, p).seen, s.now, granted)],
              issued := s.issued + {granted.refresh})
    case Write(p) =>
      (match PcOf(s, p)
       case Read(Batch(order, changes), seen) =>
         WellFormedTx(Batch(order, changes)) &&
         t == s.(procs := s.procs[p := Finished], disk := ApplyBatch(seen, order, changes),
                 issued := s.issued + ChangeTokens(changes), hist := s.hist + [Wrote(order, changes)])
       case Granted(Refresh(slot, window, force), seen, at, granted) =>
         slot in seen &&
         t == s.(procs := s.procs[p := Finished], disk := seen[slot := Refreshed(seen[slot], granted)],
                 hist := s.hist + [Rotated(slot, seen[slot], granted, at, window, force)])
       case _ => false)
    case Release(p) =>
      (PcOf(s, p).Finished? || (PcOf(s, p).Read? && PcOf(s, p).tx.Refresh?)) &&
      t == s.(procs := s.procs[p := Idle], holder := None)
    case Tick(later) => later >= s.now && t == s.(now := later)
  }

  ghost predicate Init(s: Sys) {
    s.holder == None && s.procs == map[] && s.hist == [] && s.issued == Tokens(s.disk)
  }

  ghost predicate Path(states: seq<Sys>, labels: seq<Label>) {
    && |states| == |labels| + 1
    && forall i | 0 <= i < |labels| :: Next(states[i], labels[i], states[i + 1])
  }

  ghost predicate Run(states: seq<Sys>, labels: seq<Label>) {
    Path(states, labels) && Init(states[0])
  }

  // ---- the atomic reading of a history ----

  ghost predicate Names(e: Event, key: string) {
    match e
    case Wrote(order, _) => key in order
    case Rotated(slot, _, _, _, _, _) => key == slot
  }

  ghost predicate WellFormedEvent(e: Event) {
    e.Wrote? ==> forall i | 0 <= i < |e.order| :: e.order[i] in e.changes
  }

  function Stored(e: Event): Cred
    requires e.Rotated?
  {
    Refreshed(e.before, e.granted)
  }

  ghost function Commit(d: Data, e: Event): Data {
    match e
    case Wrote(order, changes) =>
      if forall i | 0 <= i < |order| :: order[i] in changes then ApplyBatch(d, order, changes) else d
    case Rotated(slot, _, _, _, _, _) => d[slot := Stored(e)]
  }

  ghost function Replay(init: Data, hist: seq<Event>): Data {
    if |hist| == 0 then init else Commit(Replay(init, hist[..|hist| - 1]), hist[|hist| - 1])
  }

  // ---- the invariant ----

  ghost predicate Holding(pc: PC) { !pc.Idle? && !pc.Wanting? }

  /** Every rotation in the history spent what the file held at that moment, and only when it had to. */
  ghost predicate Justified(init: Data, hist: seq<Event>) {
    forall i | 0 <= i < |hist| && hist[i].Rotated? ::
      var d := Replay(init, hist[..i]);
      && hist[i].slot in d && d[hist[i].slot] == hist[i].before && hist[i].before.kind == OAuth
      && (hist[i].force || NeedsRefresh(hist[i].before, hist[i].at, hist[i].window))
  }

  ghost predicate ProcOk(s: Sys, p: nat) {
    var pc := PcOf(s, p);
    && (Holding(pc) <==> s.holder == Some(p))
    && (pc.Read? || pc.Granted? ==> pc.seen == s.disk)
    && (pc.Granted? ==> Wants(pc.tx, pc.seen, pc.at) && pc.granted.refresh in s.issued)
    && (!pc.Idle? && !pc.Finished? ==> WellFormedTx(pc.tx))
  }

  ghost predicate Inv(init: Data, s: Sys) {
    && (forall p :: ProcOk(s, p))
    && s.disk == Replay(init, s.hist)
    && (forall i | 0 <= i < |s.hist| :: WellFormedEvent(s.hist[i]))
    && Justified(init, s.hist)
  }

  lemma ReplaySnoc(init: Data, hist: seq<Event>, e: Event)
    ensures Replay(init, hist + [e]) == Commit(Replay(init, hist), e)
  {
    assert (hist + [e])[..|hist|] == hist;
  }

  lemma JustifiedSnoc(init: Data, hist: seq<Event>, e: Event)
    requires Justified(init, hist)
    requires e.Rotated? ==>
               var d := Replay(init, hist);
               && e.slot in d && d[e.slot] == e.before && e.before.kind == OAuth
               && (e.force || NeedsRefresh(e.before, e.at, e.window))
    ensures Justified(init, hist + [e])
  {
    forall i | 0 <= i < |hist + [e]| ensures (hist + [e])[..i] == hist[..i] {
    }
    assert hist[..|hist|] == hist;
  }

  lemma ProcsKept(s: Sys, t: Sys, p: nat)
    requires forall q :: ProcOk(s, q)
    requires forall q | q != p :: PcOf(t, q) == PcOf(s, q)
    requires ProcOk(t, p)
    requires t.disk == s.disk || s.holder == Some(p)
    requires s.issued <= t.issued
    requires t.holder == s.holder || (s.holder == None && t.holder == Some(p)) || (s.holder == Some(p) && t.holder == None)
    ensures forall q :: ProcOk(t, q)
  {
    forall q ensures ProcOk(t, q) {
      assert ProcOk(s, q);
      assert ProcOk(s, p);
    }
  }

  lemma NextKeepsProcs(s: Sys, l: Label, t: Sys)
    requires (forall q :: ProcOk(s, q)) && Next(s, l, t)
    ensures forall q :: ProcOk(t, q)
  {
    if l.Tick? {
      forall q ensures ProcOk(t, q) { assert ProcOk(s, q); }
    } else {
      assert ProcOk(s, l.p);
      ProcsKept(s, t, l.p);
    }
  }

  /** A write commits one well-formed event, on the file as it is. */
  lemma WriteCommits(s: Sys, p: nat, t: Sys)
    requires ProcOk(s, p) && Next(s, Write(p), t)
    ensures |t.hist| == |s.hist| + 1 && t.hist == s.hist + [t.hist[|s.hist|]]
    ensures var e := t.hist[|s.hist|];
            && WellFormedEvent(e) && t.disk == Commit(s.disk, e)
            && (e.Rotated? ==>
                  && e.slot in s.disk && s.disk[e.slot] == e.before && e.before.kind == OAuth
                  && (e.force || NeedsRefresh(e.before, e.at, e.window)))
  {
  }

  lemma NextKeepsInv(init: Data, s: Sys, l: Label, t: Sys)
    requires Inv(init, s) && Next(s, l, t)
    ensures Inv(init, t)
  {
    NextKeepsProcs(s, l, t);
    if l.Write? {
      assert ProcOk(s, l.p);
      WriteCommits(s, l.p, t);
      var e := t.hist[|s.hist|];
      ReplaySnoc(init, s.hist, e);
      JustifiedSnoc(init, s.hist, e);
    }
  }

  lemma RunStep(states: seq<Sys>, labels: seq<Label>, i: nat)
    requires Run(states, labels) && i < |labels|
    ensures Next(states[i], labels[i], states[i + 1])
  {
  }

  lemma {:induction false} ReachedKeepsInv(states: seq<Sys>, labels: seq<Label>, i: nat)
    requires Run(states, labels) && i < |states|
    ensures Inv(states[0].disk, states[i])
  {
    if i == 0 {
      forall p ensures ProcOk(states[0], p) {
      }
    } else {
      ReachedKeepsInv(states, labels, i - 1);
      RunStep(states, labels, i - 1);
      NextKeepsInv(states[0].disk, states[i - 1], labels[i - 1], states[i]);
    }
  }

  /** Every interleaving is serial: what is on disk is always the committed writes applied one after another,
      and every rotation among them spent the token on disk at its turn, out of need or by force. */
  lemma RunIsSerial(states: seq<Sys>, labels: seq<Label>)
    requires Run(states, labels)
    ensures forall i | 0 <= i < |states| :: Inv(states[0].disk, states[i])
  {
    forall i | 0 <= i < |states| ensures Inv(states[0].disk, states[i]) {
      ReachedKeepsInv(states, labels, i);
    }
  }

  /** Two processes are never inside the lock together. */
  lemma MutualExclusion(states: seq<Sys>, labels: seq<Label>, i: nat, p: nat, q: nat)
    requires Run(states, labels) && i < |states|
    requires Holding(PcOf(states[i], p)) && Holding(PcOf(states[i], q))
    ensures p == q
  {
    ReachedKeepsInv(states, labels, i);
    assert ProcOk(states[i], p) && ProcOk(states[i], q);
  }

  // ---- what each slot holds ----

  ghost predicate LeftBy(d: Data, e: Event, key: string) {
    match e
    case Wrote(_, changes) => key in changes && Holds(d, key, changes[key])
    case Rotated(_, _, _, _, _, _) => key in d && d[key] == Stored(e)
  }

  lemma CommitPointwise(d: Data, e: Event, key: string)
    requires WellFormedEvent(e)
    ensures if Names(e, key) then LeftBy(Commit(d, e), e, key) else SameAt(d, Commit(d, e), key)
  {
    if e.Wrote? {
      BatchPointwise(d, e.order, e.changes);
    }
  }

  /** The index after the last write that names the slot; 0 when none does. */
  ghost function LastNaming(hist: seq<Event>, key: string): (n: nat)
    ensures n <= |hist| && (n > 0 ==> Names(hist[n - 1], key))
    ensures forall i | n <= i < |hist| :: !Names(hist[i], key)
  {
    if |hist| == 0 then 0
    else if Names(hist[|hist| - 1], key) then |hist|
    else LastNaming(hist[..|hist| - 1], key)
  }

  /** Each slot holds what the last locked write naming it put there, or what it held at the start: no writer
      reverts a slot it does not name, however stale its own cache. */
  lemma {:induction false} LastWriterWins(init: Data, hist: seq<Event>, key: string)
    requires forall i | 0 <= i < |hist| :: WellFormedEvent(hist[i])
    ensures var n := LastNaming(hist, key);
            if n == 0 then SameAt(init, Replay(init, hist), key)
            else LeftBy(Replay(init, hist), hist[n - 1], key)
  {
    if |hist| > 0 {
      var front, e := hist[..|hist| - 1], hist[|hist| - 1];
      CommitPointwise(Replay(init, front), e, key);
      if !Names(e, key) {
        LastWriterWins(init, front, key);
        KeptKeepsLeft(Replay(init, front), Replay(init, hist), key);
      }
    }
  }

  lemma KeptKeepsLeft(d: Data, e: Data, key: string)
    requires SameAt(d, e, key)
    ensures forall init | SameAt(init, d, key) :: SameAt(init, e, key)
    ensures forall w | LeftBy(d, w, key) :: LeftBy(e, w, key)
  {
  }

  lemma DiskHoldsLastWrite(states: seq<Sys>, labels: seq<Label>, i: nat, key: string)
    requires Run(states, labels) && i < |states|
    ensures var n := LastNaming(states[i].hist, key);
            if n == 0 then SameAt(states[0].disk, states[i].disk, key)
            else LeftBy(states[i].disk, states[i].hist[n - 1], key)
  {
    ReachedKeepsInv(states, labels, i);
    LastWriterWins(states[0].disk, states[i].hist, key);
  }

  // ---- the chain of grants ----

  lemma {:induction false} ReplayBetween(init: Data, hist: seq<Event>, i: nat, j: nat, key: string)
    requires i <= j <= |hist|
    requires forall k | 0 <= k < |hist| :: WellFormedEvent(hist[k])
    requires forall k | i <= k < j :: !Names(hist[k], key)
    ensures SameAt(Replay(init, hist[..i]), Replay(init, hist[..j]), key)
    decreases j - i
  {
    if i < j {
      ReplayBetween(init, hist, i, j - 1, key);
      assert hist[..j] == hist[..j - 1] + [hist[j - 1]];
      ReplaySnoc(init, hist[..j - 1], hist[j - 1]);
      CommitPointwise(Replay(init, hist[..j - 1]), hist[j - 1], key);
    }
  }

  lemma ChainLink(init: Data, hist: seq<Event>, i: nat, j: nat)
    requires Justified(init, hist) && forall k | 0 <= k < |hist| :: WellFormedEvent(hist[k])
    requires i < j < |hist| && hist[i].Rotated? && hist[j].Rotated? && hist[i].slot == hist[j].slot
    requires forall k | i < k < j :: !Names(hist[k], hist[j].slot)
    ensures hist[j].before == Stored(hist[i])
  {
    ReplayBetween(init, hist, i + 1, j, hist[j].slot);
    assert hist[..i + 1] == hist[..i] + [hist[i]];
    ReplaySnoc(init, hist[..i], hist[i]);
  }

  /** A rotation spends exactly what the previous write naming the slot stored; so successive rotations of a slot
      that nothing else writes form a chain. */
  lemma GrantsFormAChain(states: seq<Sys>, labels: seq<Label>, n: nat, i: nat, j: nat)
    requires Run(states, labels) && n < |states|
    requires i < j < |states[n].hist| && states[n].hist[i].Rotated? && states[n].hist[j].Rotated?
    requires states[n].hist[i].slot == states[n].hist[j].slot
    requires forall k | i < k < j :: !Names(states[n].hist[k], states[n].hist[j].slot)
    ensures states[n].hist[j].before == Stored(states[n].hist[i])
    ensures states[n].hist[j].before.refresh == states[n].hist[i].granted.refresh
  {
    ReachedKeepsInv(states, labels, n);
    ChainLink(states[0].disk, states[n].hist, i, j);
  }

  /** No grant is spent unless forced or the credential on disk at that turn had expired or was to expire within the
      window. */
  lemma GrantsAreNeeded(states: seq<Sys>, labels: seq<Label>, n: nat, i: nat)
    requires Run(states, labels) && n < |states| && i < |states[n].hist| && states[n].hist[i].Rotated?
    ensures var e := states[n].hist[i];
            var d := Replay(states[0].disk, states[n].hist[..i]);
            && e.slot in d && d[e.slot] == e.before && d[e.slot].kind == OAuth
            && (e.force || (d[e.slot].expires != 0 && d[e.slot].expires <= e.at + (if e.window > 0 then e.window else 0)))
  {
    ReachedKeepsInv(states, labels, n);
    assert Justified(states[0].disk, states[n].hist);
  }

  // ---- whole sections, undisturbed ----

  lemma PathConcat(states: seq<Sys>, labels: seq<Label>, states2: seq<Sys>, labels2: seq<Label>)
      returns (all: seq<Sys>)
    requires Path(states, labels) && Path(states2, labels2) && states[|labels|] == states2[0]
    ensures Path(all, labels + labels2) && all[0] == states[0] && all[|labels + labels2|] == states2[|labels2|]
    ensures forall i | 0 <= i <= |labels| :: all[i] == states[i]
  {
    all := states + states2[1..];
    var both := labels + labels2;
    forall i | 0 <= i < |both| ensures Next(all[i], both[i], all[i + 1]) {
      if i < |labels| {
        assert both[i] == labels[i] && all[i] == states[i] && all[i + 1] == states[i + 1];
      } else {
        var k := i - |labels|;
        assert Next(states2[k], labels2[k], states2[k + 1]);
        assert both[i] == labels2[k] && all[i] == states2[k] && all[i + 1] == states2[k + 1];
      }
    }
  }

  /** The same but for what process p does: it is idle again, and nobody else has moved. */
  ghost predicate SameProcs(s: Sys, t: Sys) {
    t.holder == s.holder && t.now == s.now && forall q :: PcOf(t, q) == PcOf(s, q)
  }

  /** A process takes the free lock for tx and reads the file. */
  ghost function Entered(s: Sys, p: nat, tx: Tx): seq<Sys> {
    var a := s.(procs := s.procs[p := Wanting(tx)]);
    var b := a.(procs := a.procs[p := Locked(tx)], holder := Some(p));
    [s, a, b, b.(procs := b.procs[p := Read(tx, b.disk)])]
  }

  ghost function EnterLabels(p: nat, tx: Tx): seq<Label> { [Begin(p, tx), Acquire(p), ReadFile(p)] }

  lemma EnterPath(s: Sys, p: nat, tx: Tx)
    requires s.holder == None && PcOf(s, p).Idle? && WellFormedTx(tx)
    ensures Path(Entered(s, p, tx), EnterLabels(p, tx)) && Entered(s, p, tx)[0] == s
    ensures var t := Entered(s, p, tx)[3];
            && PcOf(t, p) == Read(tx, s.disk) && (forall q | q != p :: PcOf(t, q) == PcOf(s, q))
            && t == s.(procs := t.procs, holder := Some(p))
  {
    var states, labels := Entered(s, p, tx), EnterLabels(p, tx);
    assert Next(states[0], labels[0], states[1]);
    assert Next(states[1], labels[1], states[2]);
    assert Next(states[2], labels[2], states[3]);
  }

  /** One whole refresh that the provider grants. */
  lemma RefreshSection(s: Sys, p: nat, slot: string, window: int, force: bool, granted: OAuthCreds)
      returns (states: seq<Sys>, labels: seq<Label>)
    requires s.holder == None && PcOf(s, p).Idle?
    requires Wants(Refresh(slot, window, force), s.disk, s.now) && granted.refresh !in s.issued
    ensures Path(states, labels) && states[0] == s && SameProcs(s, states[|labels|])
    ensures labels == EnterLabels(p, Refresh(slot, window, force)) + [Grant(p, granted), Write(p), Release(p)]
    ensures var t := states[|labels|];
            && t.disk == s.disk[slot := Refreshed(s.disk[slot], granted)] && t.issued == s.issued + {granted.refresh}
            && t.hist == s.hist + [Rotated(slot, s.disk[slot], granted, s.now, window, force)]
  {
    var tx := Refresh(slot, window, force);
    EnterPath(s, p, tx);
    var a := Entered(s, p, tx)[3];
    var b := a.(procs := a.procs[p := Granted(tx, s.disk, s.now, granted)], issued := a.issued + {granted.refresh});
    var c := b.(procs := b.procs[p := Finished], disk := s.disk[slot := Refreshed(s.disk[slot], granted)],
                hist := s.hist + [Rotated(slot, s.disk[slot], granted, s.now, window, force)]);
    var d := c.(procs := c.procs[p := Idle], holder := None);
    var rest, moves := [a, b, c, d], [Grant(p, granted), Write(p), Release(p)];
    assert Next(rest[0], moves[0], rest[1]);
    assert Next(rest[1], moves[1], rest[2]);
    assert Next(rest[2], moves[2], rest[3]);
    states := PathConcat(Entered(s, p, tx), EnterLabels(p, tx), rest, moves);
    labels := EnterLabels(p, tx) + moves;
  }

  /** One whole write. */
  lemma BatchSection(s: Sys, p: nat, order: seq<string>, changes: Changes) returns (states: seq<Sys>, labels: seq<Label>)
    requires s.holder == None && PcOf(s, p).Idle? && WellFormedTx(Batch(order, changes))
    ensures Path(states, labels) && states[0] == s && SameProcs(s, states[|labels|])
    ensures labels == EnterLabels(p, Batch(order, changes)) + [Write(p), Release(p)]
    ensures var t := states[|labels|];
            && t.disk == ApplyBatch(s.disk, order, changes) && t.issued == s.issued + ChangeTokens(changes)
            && t.hist == s.hist + [Wrote(order, changes)]
  {
    var tx := Batch(order, changes);
    EnterPath(s, p, tx);
    var a := Entered(s, p, tx)[3];
    var b := a.(procs := a.procs[p := Finished], disk := ApplyBatch(s.disk, order, changes),
                issued := a.issued + ChangeTokens(changes), hist := s.hist + [Wrote(order, changes)]);
    var c := b.(procs := b.procs[p := Idle], holder := None);
    var rest, moves := [a, b, c], [Write(p), Release(p)];
    assert Next(rest[0], moves[0], rest[1]);
    assert Next(rest[1], moves[1], rest[2]);
    states := PathConcat(Entered(s, p, tx), EnterLabels(p, tx), rest, moves);
    labels := EnterLabels(p, tx) + moves;
  }
}
