/** Refresh tokens over the runs of SharedFile (section 6 of RFC 6749; pkg/auth/refresh.go, authstorage.go, accounts.go):
    when no token is ever spent twice, and what the writers of the file have to do with it. */
module RefreshTokens {
  import opened Slots
  import opened Credentials
  import opened AuthData
  import opened SharedFile
  import opened Text
  import opened Wrappers

  function Spent(hist: seq<Event>): set<string> {
    set i | 0 <= i < |hist| && hist[i].Rotated? && hist[i].before.refresh != "" :: hist[i].before.refresh
  }

  ghost predicate Spendable(d: Data, key: string) {
    key in d && d[key].kind == OAuth && d[key].refresh != ""
  }

  /** No OAuth slot holds a spent token, and no two hold the same one. */
  ghost predicate Sound(d: Data, spent: set<string>) {
    && (forall key | Spendable(d, key) :: d[key].refresh !in spent)
    && (forall a, b | Spendable(d, a) && Spendable(d, b) && a != b :: d[a].refresh != d[b].refresh)
  }

  ghost predicate Puts(changes: Changes, order: seq<string>, key: string, token: string) {
    key in order && key in changes && changes[key].Some? && changes[key].value.kind == OAuth
    && changes[key].value.refresh == token && token != ""
  }

  /** The OAuth tokens a batch stores are unspent, differ from each other, and differ from those of the slots it leaves
      alone. Which writers are clean is shown below, from what they know. */
  ghost predicate Clean(d: Data, spent: set<string>, order: seq<string>, changes: Changes) {
    && (forall key, token | Puts(changes, order, key, token) :: token !in spent)
    && (forall a, b, token | Puts(changes, order, a, token) && Puts(changes, order, b, token) :: a == b)
    && (forall a, b, token | Puts(changes, order, a, token) && b !in order && Spendable(d, b) :: d[b].refresh != token)
  }

  /** From a sound file a batch leaves a sound one exactly when it is clean. */
  lemma BatchSoundExactly(d: Data, spent: set<string>, order: seq<string>, changes: Changes)
    requires Sound(d, spent) && forall i | 0 <= i < |order| :: order[i] in changes
    ensures Sound(ApplyBatch(d, order, changes), spent) <==> Clean(d, spent, order, changes)
  {
    var e := ApplyBatch(d, order, changes);
    BatchPointwise(d, order, changes);
    forall key ensures key in order ==> (Spendable(e, key) <==> exists token :: Puts(changes, order, key, token))
                                        && (Spendable(e, key) ==> Puts(changes, order, key, e[key].refresh))
    {
      if key in order {
        assert Holds(e, key, changes[key]);
        if Spendable(e, key) {
          assert Puts(changes, order, key, e[key].refresh);
        }
      }
    }
    forall key, token | Puts(changes, order, key, token) ensures Spendable(e, key) && e[key].refresh == token {
      assert Holds(e, key, changes[key]);
    }
    forall key | key !in order ensures Spendable(e, key) <==> Spendable(d, key) {
      assert SameAt(d, e, key);
    }
    forall key | key !in order && Spendable(d, key) ensures e[key].refresh == d[key].refresh {
      assert SameAt(d, e, key);
    }
  }

  ghost predicate NoRepeat(hist: seq<Event>) {
    forall i, j | 0 <= i < j < |hist| && hist[i].Rotated? && hist[j].Rotated? && hist[i].before.refresh != "" ::
      hist[i].before.refresh != hist[j].before.refresh
  }

  ghost predicate TokenInv(s: Sys) {
    && Tokens(s.disk) <= s.issued && Spent(s.hist) <= s.issued
    && Sound(s.disk, Spent(s.hist)) && NoRepeat(s.hist)
    && forall p | PcOf(s, p).Granted? ::
         PcOf(s, p).granted.refresh !in Tokens(s.disk) && PcOf(s, p).granted.refresh !in Spent(s.hist)
  }

  /** The writer's side condition on one step. */
  ghost predicate CleanStep(s: Sys, l: Label) {
    l.Write? && PcOf(s, l.p).Read? && PcOf(s, l.p).tx.Batch? ==>
      Clean(s.disk, Spent(s.hist), PcOf(s, l.p).tx.order, PcOf(s, l.p).tx.changes)
  }

  lemma SpentSnoc(hist: seq<Event>, e: Event)
    ensures Spent(hist + [e]) ==
            Spent(hist) + if e.Rotated? && e.before.refresh != "" then {e.before.refresh} else {}
  {
    var h := hist + [e];
    forall x | x in Spent(hist) ensures x in Spent(h) {
      var i :| 0 <= i < |hist| && hist[i].Rotated? && hist[i].before.refresh != "" && hist[i].before.refresh == x;
      assert h[i] == hist[i];
    }
    if e.Rotated? && e.before.refresh != "" {
      assert h[|hist|] == e;
    }
  }

  lemma BatchTokens(d: Data, order: seq<string>, changes: Changes)
    requires forall i | 0 <= i < |order| :: order[i] in changes
    ensures Tokens(ApplyBatch(d, order, changes)) <= Tokens(d) + ChangeTokens(changes)
  {
    var e := ApplyBatch(d, order, changes);
    BatchPointwise(d, order, changes);
    forall key | key in e ensures e[key].refresh in Tokens(d) + ChangeTokens(changes) {
      if key in order {
        assert Holds(e, key, changes[key]);
        assert changes[key].value.refresh in ChangeTokens(changes);
      } else {
        assert SameAt(d, e, key);
      }
    }
  }

  lemma RotationSound(d: Data, spent: set<string>, slot: string, cred: Cred)
    requires Sound(d, spent) && slot in d && cred.refresh !in Tokens(d) && cred.refresh !in spent
    ensures Sound(d[slot := cred], spent + if d[slot].kind == OAuth && d[slot].refresh != "" then {d[slot].refresh} else {})
  {
    var e := d[slot := cred];
    forall key | Spendable(e, key) ensures key != slot ==> Spendable(d, key) && e[key] == d[key] {
    }
    assert d[slot].refresh in Tokens(d);
    forall key | key in d ensures d[key].refresh in Tokens(d) {
    }
  }

  lemma NoneGranted(s: Sys, p: nat, t: Sys)
    requires (forall q :: ProcOk(s, q)) && s.holder == Some(p) && t.procs == s.procs[p := Finished]
    ensures forall q :: !PcOf(t, q).Granted?
  {
    forall q ensures !PcOf(t, q).Granted? {
      assert ProcOk(s, q);
    }
  }

  lemma NoRepeatSnoc(hist: seq<Event>, e: Event)
    requires NoRepeat(hist) && (e.Rotated? && e.before.refresh != "" ==> e.before.refresh !in Spent(hist))
    ensures NoRepeat(hist + [e])
  {
    if e.Rotated? {
      forall i | 0 <= i < |hist| && hist[i].Rotated? && hist[i].before.refresh != ""
        ensures hist[i].before.refresh != e.before.refresh
      {
        assert hist[i].before.refresh in Spent(hist);
      }
    }
  }

  lemma RotationTokens(s: Sys, p: nat, t: Sys)
    requires (forall q :: ProcOk(s, q)) && TokenInv(s) && Next(s, Write(p), t) && PcOf(s, p).Granted?
    ensures TokenInv(t)
  {
    assert ProcOk(s, p);
    WriteCommits(s, p, t);
    var e := t.hist[|s.hist|];
    SpentSnoc(s.hist, e);
    assert s.disk[e.slot].refresh in Tokens(s.disk);
    RotationSound(s.disk, Spent(s.hist), e.slot, Stored(e));
    assert Tokens(t.disk) <= Tokens(s.disk) + {e.granted.refresh};
    NoneGranted(s, p, t);
    assert e.before.refresh != "" ==> Spendable(s.disk, e.slot);
    NoRepeatSnoc(s.hist, e);
  }

  lemma BatchStepTokens(s: Sys, p: nat, t: Sys)
    requires (forall q :: ProcOk(s, q)) && TokenInv(s) && Next(s, Write(p), t) && PcOf(s, p).Read?
    requires CleanStep(s, Write(p))
    ensures TokenInv(t)
  {
    assert ProcOk(s, p);
    var tx := PcOf(s, p).tx;
    WriteCommits(s, p, t);
    SpentSnoc(s.hist, t.hist[|s.hist|]);
    BatchSoundExactly(s.disk, Spent(s.hist), tx.order, tx.changes);
    BatchTokens(s.disk, tx.order, tx.changes);
    NoneGranted(s, p, t);
  }

  lemma NextKeepsTokens(s: Sys, l: Label, t: Sys)
    requires (forall q :: ProcOk(s, q)) && TokenInv(s) && Next(s, l, t) && CleanStep(s, l)
    ensures TokenInv(t)
  {
    match l
    case Write(p) =>
      if PcOf(s, p).Granted? {
        RotationTokens(s, p, t);
      } else {
        BatchStepTokens(s, p, t);
      }
    case Tick(_) =>
      assert forall q :: PcOf(t, q) == PcOf(s, q);
    case _ =>
      assert forall q | q != l.p :: PcOf(t, q) == PcOf(s, q);
  }

  lemma {:induction false} ReachedKeepsTokens(states: seq<Sys>, labels: seq<Label>, i: nat)
    requires Run(states, labels) && i < |states| && Sound(states[0].disk, {})
    requires forall k | 0 <= k < |labels| :: CleanStep(states[k], labels[k])
    ensures TokenInv(states[i])
  {
    if i == 0 {
      assert Spent([]) == {};
    } else {
      ReachedKeepsTokens(states, labels, i - 1);
      ReachedKeepsInv(states, labels, i - 1);
      RunStep(states, labels, i - 1);
      NextKeepsTokens(states[i - 1], labels[i - 1], states[i]);
    }
  }

  /** Two processes never both consume the same refresh token, in any interleaving, as long as every other writer is
      clean; and what is on disk is never a spent token. */
  lemma NoTokenSpentTwice(states: seq<Sys>, labels: seq<Label>)
    requires Run(states, labels) && Sound(states[0].disk, {})
    requires forall i | 0 <= i < |labels| :: CleanStep(states[i], labels[i])
    ensures forall i | 0 <= i < |states| :: NoRepeat(states[i].hist) && Sound(states[i].disk, Spent(states[i].hist))
  {
    forall i | 0 <= i < |states| ensures NoRepeat(states[i].hist) && Sound(states[i].disk, Spent(states[i].hist)) {
      ReachedKeepsTokens(states, labels, i);
    }
  }

  // ---- clean is exactly right ----

  /** Nobody is at work. */
  ghost predicate Calm(s: Sys) { s.holder == None && forall q :: PcOf(s, q).Idle? }

  /** The tokens on disk and the spent ones have been seen, and none has been spent twice so far. */
  ghost predicate Seen(s: Sys) {
    Tokens(s.disk) <= s.issued && Spent(s.hist) <= s.issued && NoRepeat(s.hist)
  }

  ghost predicate RefreshesOnly(labels: seq<Label>) {
    forall i | 0 <= i < |labels| && labels[i].Begin? :: labels[i].tx.Refresh?
  }

  /** From here on, refreshes alone spend no token a second time, however they interleave. */
  ghost predicate NeverRespends(s: Sys) {
    forall states: seq<Sys>, labels: seq<Label> | Path(states, labels) && states[0] == s && RefreshesOnly(labels) :: NoRepeat(states[|labels|].hist)
  }

  ghost predicate NoBatch(s: Sys) {
    forall q :: PcOf(s, q).Idle? || PcOf(s, q).Finished? || PcOf(s, q).tx.Refresh?
  }

  lemma StepKeepsNoBatch(s: Sys, l: Label, t: Sys)
    requires NoBatch(s) && Next(s, l, t) && (l.Begin? ==> l.tx.Refresh?)
    ensures NoBatch(t)
  {
    forall q ensures PcOf(t, q).Idle? || PcOf(t, q).Finished? || PcOf(t, q).tx.Refresh? {
      assert l.Tick? || q != l.p ==> PcOf(t, q) == PcOf(s, q);
      assert !l.Tick? ==> PcOf(s, l.p).Idle? || PcOf(s, l.p).Finished? || PcOf(s, l.p).tx.Refresh?;
    }
  }

  lemma {:induction false} RefreshesKeepTokens(states: seq<Sys>, labels: seq<Label>, i: nat)
    requires Path(states, labels) && i <= |labels| && RefreshesOnly(labels)
    requires (forall q :: ProcOk(states[0], q)) && TokenInv(states[0]) && NoBatch(states[0])
    ensures (forall q :: ProcOk(states[i], q)) && TokenInv(states[i]) && NoBatch(states[i])
  {
    if i > 0 {
      var s, l := states[i - 1], labels[i - 1];
      RefreshesKeepTokens(states, labels, i - 1);
      assert Next(s, l, states[i - 1 + 1]);
      assert !l.Tick? ==> PcOf(s, l.p).Idle? || PcOf(s, l.p).Finished? || PcOf(s, l.p).tx.Refresh?;
      NextKeepsProcs(s, l, states[i]);
      NextKeepsTokens(s, l, states[i]);
      StepKeepsNoBatch(s, l, states[i]);
    }
  }

  /** A token longer than any seen. */
  ghost function FreshToken(seen: set<string>): (token: string)
    ensures token !in seen && forall x | x in seen :: |x| < |token|
  {
    if seen == {} then ""
    else
      var x :| x in seen;
      var token := seq(|FreshToken(seen - {x})| + |x| + 1, _ => 'x');
      assert forall y | y in seen :: y == x || y in seen - {x};
      token
  }

  lemma SectionRefreshesOnly(p: nat, tx: Tx, granted: OAuthCreds)
    requires tx.Refresh?
    ensures RefreshesOnly(EnterLabels(p, tx) + [Grant(p, granted), Write(p), Release(p)])
  {
  }

  lemma RepeatIn(hist: seq<Event>, e: Event)
    requires e.Rotated? && e.before.refresh in Spent(hist)
    ensures !NoRepeat(hist + [e])
  {
    var h := hist + [e];
    var i :| 0 <= i < |hist| && hist[i].Rotated? && hist[i].before.refresh != "" && hist[i].before.refresh == e.before.refresh;
    assert h[i] == hist[i] && h[|hist|] == e;
  }

  /** A spent token in an OAuth slot is spent again by the next refresh of the slot, forced or due, that finds the lock
      free. */
  lemma SpentIsRespent(s: Sys, p: nat, slot: string, window: int, force: bool, granted: OAuthCreds)
      returns (states: seq<Sys>, labels: seq<Label>)
    requires s.holder == None && PcOf(s, p).Idle? && granted.refresh !in s.issued
    requires Wants(Refresh(slot, window, force), s.disk, s.now) && s.disk[slot].refresh in Spent(s.hist)
    ensures Path(states, labels) && states[0] == s && SameProcs(s, states[|labels|]) && RefreshesOnly(labels)
    ensures labels == EnterLabels(p, Refresh(slot, window, force)) + [Grant(p, granted), Write(p), Release(p)]
    ensures !NoRepeat(states[|labels|].hist)
  {
    states, labels := RefreshSection(s, p, slot, window, force, granted);
    SectionRefreshesOnly(p, Refresh(slot, window, force), granted);
    RepeatIn(s.hist, Rotated(slot, s.disk[slot], granted, s.now, window, force));
  }

  lemma SharedIsSpent(d: Data, hist: seq<Event>, a: string, b: string, e: Event)
    requires Spendable(d, a) && Spendable(d, b) && a != b && d[a].refresh == d[b].refresh
    requires e.Rotated? && e.slot == a && e.before == d[a]
    ensures Spendable(d[a := Stored(e)], b) && d[a := Stored(e)][b].refresh in Spent(hist + [e])
  {
    SpentSnoc(hist, e);
  }

  lemma SharedBecomesSpent(s: Sys, p: nat, a: string, b: string) returns (states: seq<Sys>, labels: seq<Label>)
    requires s.holder == None && PcOf(s, p).Idle?
    requires Spendable(s.disk, a) && Spendable(s.disk, b) && a != b && s.disk[a].refresh == s.disk[b].refresh
    ensures Path(states, labels) && states[0] == s && SameProcs(s, states[|labels|]) && RefreshesOnly(labels)
    ensures var t := states[|labels|]; Spendable(t.disk, b) && t.disk[b].refresh in Spent(t.hist)
  {
    var granted := OAuthCreds("", FreshToken(s.issued), 0, map[]);
    states, labels := RefreshSection(s, p, a, 0, true, granted);
    SectionRefreshesOnly(p, Refresh(a, 0, true), granted);
    SharedIsSpent(s.disk, s.hist, a, b, Rotated(a, s.disk[a], granted, s.now, 0, true));
  }

  lemma RefreshesConcat(labels: seq<Label>, labels2: seq<Label>)
    requires RefreshesOnly(labels) && RefreshesOnly(labels2)
    ensures RefreshesOnly(labels + labels2)
  {
  }

  /** Two slots that share a token: one refresh of each spends it twice. */
  lemma SharedIsRespent(s: Sys, p: nat, a: string, b: string) returns (states: seq<Sys>, labels: seq<Label>)
    requires s.holder == None && PcOf(s, p).Idle?
    requires Spendable(s.disk, a) && Spendable(s.disk, b) && a != b && s.disk[a].refresh == s.disk[b].refresh
    ensures Path(states, labels) && states[0] == s && RefreshesOnly(labels) && !NoRepeat(states[|labels|].hist)
  {
    var states1, labels1 := SharedBecomesSpent(s, p, a, b);
    var t := states1[|labels1|];
    var granted := OAuthCreds("", FreshToken(t.issued), 0, map[]);
    var states2, labels2 := SpentIsRespent(t, p, b, 0, true, granted);
    RefreshesConcat(labels1, labels2);
    states := PathConcat(states1, labels1, states2, labels2);
    labels := labels1 + labels2;
  }

  lemma CalmInv(s: Sys)
    requires Calm(s) && Seen(s)
    ensures (forall q :: ProcOk(s, q)) && NoBatch(s)
    ensures Sound(s.disk, Spent(s.hist)) ==> TokenInv(s)
  {
  }

  lemma SoundNeverRespends(s: Sys)
    requires Calm(s) && Seen(s) && Sound(s.disk, Spent(s.hist))
    ensures NeverRespends(s)
  {
    CalmInv(s);
    forall states: seq<Sys>, labels: seq<Label> | Path(states, labels) && states[0] == s && RefreshesOnly(labels)
      ensures NoRepeat(states[|labels|].hist)
    {
      RefreshesKeepTokens(states, labels, |labels|);
    }
  }

  lemma UnsoundRespends(s: Sys)
    requires Calm(s) && !Sound(s.disk, Spent(s.hist))
    ensures !NeverRespends(s)
  {
    if key :| Spendable(s.disk, key) && s.disk[key].refresh in Spent(s.hist) {
      var states, labels := SpentIsRespent(s, 0, key, 0, true, OAuthCreds("", FreshToken(s.issued), 0, map[]));
    } else {
      var a, b :| Spendable(s.disk, a) && Spendable(s.disk, b) && a != b && s.disk[a].refresh == s.disk[b].refresh;
      var states, labels := SharedIsRespent(s, 0, a, b);
    }
  }

  /** With nobody at work: refreshes will never spend a token twice if and only if no OAuth slot holds a spent token and
      no two hold the same one. */
  lemma NeverRespendsExactly(s: Sys)
    requires Calm(s) && Seen(s)
    ensures NeverRespends(s) <==> Sound(s.disk, Spent(s.hist))
  {
    if Sound(s.disk, Spent(s.hist)) {
      SoundNeverRespends(s);
    } else {
      UnsoundRespends(s);
    }
  }

  /** And a write leaves it so if and only if it is clean. */
  lemma WriteIsSafeExactly(s: Sys, p: nat, order: seq<string>, changes: Changes)
      returns (states: seq<Sys>, labels: seq<Label>)
    requires Calm(s) && Seen(s) && NeverRespends(s) && WellFormedTx(Batch(order, changes))
    ensures Path(states, labels) && states[0] == s
    ensures labels == EnterLabels(p, Batch(order, changes)) + [Write(p), Release(p)]
    ensures NeverRespends(states[|labels|]) <==> Clean(s.disk, Spent(s.hist), order, changes)
  {
    states, labels := BatchSection(s, p, order, changes);
    var t := states[|labels|];
    SpentSnoc(s.hist, Wrote(order, changes));
    assert Spent(t.hist) == Spent(s.hist);
    BatchTokens(s.disk, order, changes);
    assert NoRepeat(t.hist);
    assert Calm(t);
    NeverRespendsExactly(s);
    NeverRespendsExactly(t);
    BatchSoundExactly(s.disk, Spent(s.hist), order, changes);
  }

  // ---- which writers are clean ----

  /** Storing this credential outside the slots `order` takes over adds no spent and no shared token. */
  ghost predicate Usable(d: Data, spent: set<string>, order: seq<string>, cred: Cred) {
    cred.kind == OAuth && cred.refresh != "" ==>
      cred.refresh !in spent && forall b | b !in order && Spendable(d, b) :: d[b].refresh != cred.refresh
  }

  ghost predicate SameToken(a: Cred, b: Cred) {
    a.kind == OAuth && b.kind == OAuth && a.refresh != "" && a.refresh == b.refresh
  }

  /** A batch that stores one credential, or two, and deletes otherwise. */
  lemma OnePutExactly(d: Data, spent: set<string>, order: seq<string>, changes: Changes, a: string, cred: Cred)
    requires a in order && a in changes && changes[a] == Some(cred)
    requires forall key | key in order && key != a :: key in changes && changes[key] == None
    ensures Clean(d, spent, order, changes) <==> Usable(d, spent, order, cred)
  {
    if cred.kind == OAuth && cred.refresh != "" {
      assert Puts(changes, order, a, cred.refresh);
    }
  }

  lemma TwoPutsExactly(d: Data, spent: set<string>, order: seq<string>, changes: Changes, a: string, cred: Cred,
                       b: string, cred2: Cred)
    requires a in order && a in changes && changes[a] == Some(cred)
    requires b in order && b in changes && changes[b] == Some(cred2) && a != b
    requires forall key | key in order && key != a && key != b :: key in changes && changes[key] == None
    ensures Clean(d, spent, order, changes) <==>
            Usable(d, spent, order, cred) && Usable(d, spent, order, cred2) && !SameToken(cred, cred2)
  {
    assert Puts(changes, order, a, cred.refresh) <==> cred.kind == OAuth && cred.refresh != "";
    assert Puts(changes, order, b, cred2.refresh) <==> cred2.kind == OAuth && cred2.refresh != "";
  }

  lemma SetIsCleanExactly(d: Data, spent: set<string>, slot: string, cred: Cred)
    ensures Clean(d, spent, [slot], map[slot := Some(cred)]) <==> Usable(d, spent, [slot], cred)
  {
    OnePutExactly(d, spent, [slot], map[slot := Some(cred)], slot, cred);
  }

  /** A removal is clean, and so is a login: its token has just been minted. */
  lemma RemovalIsClean(d: Data, spent: set<string>, slot: string)
    ensures Clean(d, spent, [slot], map[slot := None])
  {
  }

  lemma MintedSetIsClean(d: Data, spent: set<string>, slot: string, cred: Cred)
    requires cred.kind == OAuth && cred.refresh != "" ==> cred.refresh !in Tokens(d) && cred.refresh !in spent
    ensures Clean(d, spent, [slot], map[slot := Some(cred)])
  {
    SetIsCleanExactly(d, spent, slot, cred);
    forall b | Spendable(d, b) ensures d[b].refresh in Tokens(d) {
    }
  }

  /** SetDefaultAccount from any cache, however stale: it is clean if and only if the two credentials it moves are usable
      and do not share a token. */
  lemma PromotionIsCleanExactly(cache: Data, d: Data, spent: set<string>, provider: string, accountID: string)
    requires IsProvider(provider) && Promote(cache, provider, accountID).Some?
    ensures var p, promoted := Promote(cache, provider, accountID).value, cache[SlotKey(provider, accountID)];
            Clean(d, spent, p.order, p.changes) <==>
              && Usable(d, spent, p.order, promoted)
              && (provider in cache ==> Usable(d, spent, p.order, cache[provider]) && !SameToken(promoted, cache[provider]))
  {
    var p, from := Promote(cache, provider, accountID).value, SlotKey(provider, accountID);
    assert from[|provider|] == '#';
    if provider in cache {
      FreeSlotIsFree(cache, provider, cache[provider], from);
      PromoteSwaps(cache, provider, accountID, from, FreeSlot(cache, provider, cache[provider], from));
      TwoPutsExactly(d, spent, p.order, p.changes, provider, cache[from], p.demoted, cache[provider]);
    } else {
      PromoteMoves(cache, provider, accountID, from);
      OnePutExactly(d, spent, p.order, p.changes, provider, cache[from]);
    }
  }

  /** What SetDefaultAccount could check under the lock: the two credentials it moves are still those of the file. Then
      it is clean, however stale the rest of the cache. */
  lemma CheckedPromotionIsClean(cache: Data, d: Data, spent: set<string>, provider: string, accountID: string)
    requires IsProvider(provider) && Sound(d, spent) && Promote(cache, provider, accountID).Some?
    requires SameAt(cache, d, SlotKey(provider, accountID)) && SameAt(cache, d, provider)
    ensures var p := Promote(cache, provider, accountID).value;
            Clean(d, spent, p.order, p.changes)
  {
    var from := SlotKey(provider, accountID);
    assert from[|provider|] == '#' && from != provider;
    PromotionIsCleanExactly(cache, d, spent, provider, accountID);
    PromoteNames(cache, provider, accountID);
    assert Spendable(d, from) <==> cache[from].kind == OAuth && cache[from].refresh != "";
    assert provider in cache ==> (Spendable(d, provider) <==> cache[provider].kind == OAuth && cache[provider].refresh != "");
  }

  lemma PromoteNames(cache: Data, provider: string, accountID: string)
    requires Promote(cache, provider, accountID).Some?
    ensures var p := Promote(cache, provider, accountID).value;
            SlotKey(provider, accountID) in p.order && provider in p.order
  {
    var p := Promote(cache, provider, accountID).value;
    assert p.order[0] == SlotKey(provider, accountID) && p.order[|p.order| - 1] == provider;
  }

  /** So from a cache that matches the file it is clean. */
  lemma CurrentPromotionIsClean(d: Data, spent: set<string>, provider: string, accountID: string)
    requires IsProvider(provider) && Sound(d, spent) && Promote(d, provider, accountID).Some?
    ensures var p := Promote(d, provider, accountID).value;
            Clean(d, spent, p.order, p.changes)
  {
    CheckedPromotionIsClean(d, d, spent, provider, accountID);
  }

  // ---- runs of the real writers ----

  /** What the writers of the file are: a removal, a login or a stored account, or a promotion from the writer's cache. */
  datatype Writer =
    | Removes(slot: string)
    | Stores(slot: string, cred: Cred)
    | Promotes(cache: Data, provider: string, accountID: string)

  ghost predicate Writes(w: Writer, order: seq<string>, changes: Changes) {
    match w
    case Removes(slot) => order == [slot] && changes == map[slot := None]
    case Stores(slot, cred) => order == [slot] && changes == map[slot := Some(cred)]
    case Promotes(cache, provider, accountID) =>
      match Promote(cache, provider, accountID)
      case None => false
      case Some(p) => order == p.order && changes == p.changes
  }

  /** What each knows at its turn: a stored OAuth credential comes straight from a grant, and a promotion moves what the
      file still holds. */
  ghost predicate Honest(s: Sys, w: Writer) {
    match w
    case Removes(_) => true
    case Stores(_, cred) => cred.kind == OAuth && cred.refresh != "" ==> cred.refresh !in s.issued
    case Promotes(cache, provider, accountID) =>
      IsProvider(provider) && SameAt(cache, s.disk, SlotKey(provider, accountID)) && SameAt(cache, s.disk, provider)
  }

  ghost predicate HonestStep(s: Sys, l: Label) {
    l.Write? && PcOf(s, l.p).Read? && PcOf(s, l.p).tx.Batch? ==>
      exists w :: Writes(w, PcOf(s, l.p).tx.order, PcOf(s, l.p).tx.changes) && Honest(s, w)
  }

  lemma HonestIsClean(s: Sys, w: Writer, order: seq<string>, changes: Changes)
    requires TokenInv(s) && Writes(w, order, changes) && Honest(s, w)
    ensures Clean(s.disk, Spent(s.hist), order, changes)
  {
    match w
    case Removes(slot) => RemovalIsClean(s.disk, Spent(s.hist), slot);
    case Stores(slot, cred) => MintedSetIsClean(s.disk, Spent(s.hist), slot, cred);
    case Promotes(cache, provider, accountID) => CheckedPromotionIsClean(cache, s.disk, Spent(s.hist), provider, accountID);
  }

  lemma HonestStepIsClean(s: Sys, l: Label)
    requires TokenInv(s) && HonestStep(s, l)
    ensures CleanStep(s, l)
  {
    if l.Write? && PcOf(s, l.p).Read? && PcOf(s, l.p).tx.Batch? {
      var order, changes := PcOf(s, l.p).tx.order, PcOf(s, l.p).tx.changes;
      var w :| Writes(w, order, changes) && Honest(s, w);
      HonestIsClean(s, w, order, changes);
    }
  }

  lemma {:induction false} HonestKeepsTokens(states: seq<Sys>, labels: seq<Label>, i: nat)
    requires Run(states, labels) && i < |states| && Sound(states[0].disk, {})
    requires forall k | 0 <= k < |labels| :: HonestStep(states[k], labels[k])
    ensures TokenInv(states[i])
  {
    if i == 0 {
      assert Spent([]) == {};
    } else {
      HonestKeepsTokens(states, labels, i - 1);
      ReachedKeepsInv(states, labels, i - 1);
      RunStep(states, labels, i - 1);
      HonestStepIsClean(states[i - 1], labels[i - 1]);
      NextKeepsTokens(states[i - 1], labels[i - 1], states[i]);
    }
  }

  /** With refreshes, removals, logins that store what they were just granted, and promotions that move what the file
      still holds, in any interleaving: no token is spent twice. */
  lemma HonestRunsNeverRespend(states: seq<Sys>, labels: seq<Label>)
    requires Run(states, labels) && Sound(states[0].disk, {})
    requires forall i | 0 <= i < |labels| :: HonestStep(states[i], labels[i])
    ensures forall i | 0 <= i < |states| :: NoRepeat(states[i].hist) && Sound(states[i].disk, Spent(states[i].hist))
  {
    forall i | 0 <= i < |states| ensures NoRepeat(states[i].hist) && Sound(states[i].disk, Spent(states[i].hist)) {
      HonestKeepsTokens(states, labels, i);
    }
  }

  // ---- a stale promotion ----

  lemma PromotedOnDisk(cache: Data, d: Data, provider: string, accountID: string)
    requires Promote(cache, provider, accountID).Some?
    ensures var p := Promote(cache, provider, accountID).value;
            && WellFormedTx(Batch(p.order, p.changes))
            && provider in ApplyBatch(d, p.order, p.changes)
            && ApplyBatch(d, p.order, p.changes)[provider] == cache[SlotKey(provider, accountID)]
  {
    var p := Promote(cache, provider, accountID).value;
    BatchIsPromotion(cache, provider, accountID);
    BatchPointwise(d, p.order, p.changes);
    PromoteNames(cache, provider, accountID);
    assert Holds(ApplyBatch(d, p.order, p.changes), provider, p.changes[provider]);
  }

  /** If the cached copy of the promoted account holds a token that has been spent, the promotion puts that token back
      on disk, in the default slot, and the next refresh of the default, forced or due, spends it a second time. */
  lemma StalePromotionRespends(s: Sys, p: nat, cache: Data, provider: string, accountID: string, q: nat, window: int,
                               force: bool, granted: OAuthCreds) returns (states: seq<Sys>, labels: seq<Label>)
    requires s.holder == None && PcOf(s, p).Idle? && PcOf(s, q).Idle?
    requires Promote(cache, provider, accountID).Some?
    requires var promoted := cache[SlotKey(provider, accountID)];
             && promoted.kind == OAuth && promoted.refresh != "" && promoted.refresh in Spent(s.hist)
             && (force || NeedsRefresh(promoted, s.now, window))
    requires granted.refresh !in s.issued + ChangeTokens(Promote(cache, provider, accountID).value.changes)
    ensures Path(states, labels) && states[0] == s
    ensures var p' := Promote(cache, provider, accountID).value;
            labels == EnterLabels(p, Batch(p'.order, p'.changes)) + [Write(p), Release(p)]
                      + (EnterLabels(q, Refresh(provider, window, force)) + [Grant(q, granted), Write(q), Release(q)])
    ensures !Sound(states[5].disk, Spent(states[5].hist)) && !NoRepeat(states[|labels|].hist)
  {
    var pr := Promote(cache, provider, accountID).value;
    PromotedOnDisk(cache, s.disk, provider, accountID);
    var states1, labels1 := BatchSection(s, p, pr.order, pr.changes);
    var t := states1[|labels1|];
    SpentSnoc(s.hist, Wrote(pr.order, pr.changes));
    assert Spendable(t.disk, provider) && t.disk[provider].refresh in Spent(t.hist);
    var states2, labels2 := SpentIsRespent(t, q, provider, window, force, granted);
    states := PathConcat(states1, labels1, states2, labels2);
    labels := labels1 + labels2;
  }

  const OLD := Cred(OAuth, "", "", "", "t0", 1, "", map[])

  /** An expired account `a` and no default, at the start. */
  function OneAccount(provider: string): Sys {
    Sys(map[SlotKey(provider, "a") := OLD], None, map[], 1, {"t0"}, [])
  }

  lemma OneAccountStarts(provider: string)
    ensures Init(OneAccount(provider)) && Sound(OneAccount(provider).disk, {})
  {
    var disk := OneAccount(provider).disk;
    assert disk[SlotKey(provider, "a")].refresh == "t0";
    assert Tokens(disk) == {"t0"};
  }

  lemma OneAccountPromoted(provider: string)
    requires provider != ""
    ensures var disk, from := OneAccount(provider).disk, SlotKey(provider, "a");
            && Promote(disk, provider, "a") ==
               Some(Promotion(map[provider := OLD], "", [from, provider], map[from := None][provider := Some(OLD)]))
            && ChangeTokens(Promote(disk, provider, "a").value.changes) == {"t0"}
  {
    var disk, from := OneAccount(provider).disk, SlotKey(provider, "a");
    assert from[|provider|] == '#' && from != provider;
    PromoteMoves(disk, provider, "a", from);
    assert (disk - {from})[provider := OLD] == map[provider := OLD];
    var changes: Changes := map[from := None][provider := Some(OLD)];
    assert changes[provider] == Some(OLD);
  }

  /** A run from the start in which two processes spend one token, with no forced refresh: process 1 refreshes the
      account; process 0, whose cache is still the file as it was, makes that account the default; process 1
      refreshes the default. */
  lemma StalePromotionRun(provider: string) returns (states: seq<Sys>, labels: seq<Label>)
    requires provider != ""
    ensures Run(states, labels) && Sound(states[0].disk, {}) && Promote(states[0].disk, provider, "a").Some?
    ensures var pr := Promote(states[0].disk, provider, "a").value;
            labels == EnterLabels(1, Refresh(SlotKey(provider, "a"), 0, false)) +
                      [Grant(1, OAuthCreds("", "t1", 1, map[])), Write(1), Release(1)] +
                      (EnterLabels(0, Batch(pr.order, pr.changes)) + [Write(0), Release(0)] +
                       (EnterLabels(1, Refresh(provider, 0, false)) +
                        [Grant(1, OAuthCreds("", "t2", 1, map[])), Write(1), Release(1)]))
    ensures !NoRepeat(states[|labels|].hist)
  {
    var s, from := OneAccount(provider), SlotKey(provider, "a");
    OneAccountStarts(provider);
    OneAccountPromoted(provider);
    var granted := OAuthCreds("", "t1", 1, map[]);
    var states1, labels1 := RefreshSection(s, 1, from, 0, false, granted);
    var t := states1[|labels1|];
    SpentSnoc([], Rotated(from, OLD, granted, 1, 0, false));
    assert "t0" in Spent(t.hist);
    var states2, labels2 := StalePromotionRespends(t, 0, s.disk, provider, "a", 1, 0, false, OAuthCreds("", "t2", 1, map[]));
    states := PathConcat(states1, labels1, states2, labels2);
    labels := labels1 + labels2;
  }

  // ---- a promotion is a renaming ----

  /** The slot each credential comes from. */
  function SwapSource(key: string, provider: string, from: string, demoted: string): string {
    if key == provider then from else if key == demoted then provider else key
  }

  lemma SwapIsRenaming(d: Data, provider: string, from: string, demoted: string)
    requires from in d && provider in d && from != provider && demoted != provider && (demoted == from || demoted !in d)
    ensures var e := (d - {from})[demoted := d[provider]][provider := d[from]];
            && (forall key | key in e ::
                  SwapSource(key, provider, from, demoted) in d && e[key] == d[SwapSource(key, provider, from, demoted)])
            && (forall a, b | a in e && b in e && a != b ::
                  SwapSource(a, provider, from, demoted) != SwapSource(b, provider, from, demoted))
  {
  }

  /** Each slot after a promotion holds what one slot held before, and no two slots took it from the same one. */
  lemma PromotionIsRenaming(d: Data, provider: string, accountID: string) returns (source: map<string, string>)
    requires IsProvider(provider) && Promote(d, provider, accountID).Some?
    ensures var e := Promote(d, provider, accountID).value.data;
            && source.Keys == e.Keys
            && (forall key | key in e :: source[key] in d && e[key] == d[source[key]])
            && (forall a, b | a in e && b in e && a != b :: source[a] != source[b])
  {
    var from := SlotKey(provider, accountID);
    assert from[|provider|] == '#' && from != provider;
    if provider in d {
      var demoted := FreeSlot(d, provider, d[provider], from);
      FreeSlotIsFree(d, provider, d[provider], from);
      PromoteSwaps(d, provider, accountID, from, demoted);
      SwapIsRenaming(d, provider, from, demoted);
      source := map key | key in (d - {from})[demoted := d[provider]][provider := d[from]] ::
        SwapSource(key, provider, from, demoted);
    } else {
      PromoteMoves(d, provider, accountID, from);
      source := map key | key in (d - {from})[provider := d[from]] :: SwapSource(key, provider, from, provider);
    }
  }
}
