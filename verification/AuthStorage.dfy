/** AuthStorage (pkg/auth/authstorage.go, accounts.go, refresh.go): one process's cached credentials over the
    shared file. The other processes show up as `seq<Content>` arguments: the writes of theirs that land at a
    point where this process does not hold the file lock. */
module AuthStorage {
  import opened Text
  import opened Slots
  import opened Credentials
  import opened AuthData
  import opened AuthPolicy
  import opened Wrappers

  /** What the file holds; an absent or empty file is Parsed(map[]). */
  datatype Content = Parsed(m: Data) | Corrupt

  function Parse(content: Content): Data {
    match content
    case Parsed(m) => m
    case Corrupt => map[]
  }

  /** How a locked section ends: done; the open or the lock fails; or the write fails and leaves something. */
  datatype Io = Works | LockFails | WriteFails(left: Content)

  /** The whole state: the process's fields, then the file's. Stamps count the writes of the file. */
  datatype View = View(data: Data, lastStamp: nat, loadError: bool, errors: nat, keyErrors: set<string>,
                         content: Content, stamp: nat)

  // ---- what the operations do to a state ----

  function Land(st: View, writes: seq<Content>): View {
    if |writes| == 0 then st
    else st.(content := writes[|writes| - 1], stamp := st.stamp + |writes|)
  }

  /** Reload: the stamp is taken, foreign writes may land, then the file is read under its lock. */
  function Reloaded(st: View, io: Io, between: seq<Content>): View {
    var mid := Land(st, between);
    match io
    case LockFails => mid.(loadError := true, errors := mid.errors + 1)
    case _ =>
      var loaded := mid.(lastStamp := st.stamp, loadError := false);
      match mid.content
      case Parsed(m) => loaded.(data := m)
      case Corrupt => loaded.(errors := mid.errors + 1)
  }

  function ReloadedIfStale(st: View, before: seq<Content>, io: Io, between: seq<Content>): View {
    if st.stamp == st.lastStamp then Land(st, before) else Reloaded(Land(st, before), io, between)
  }

  /** persistChanges: one locked read-modify-write; the new stamp is adopted after the lock is released. */
  function Persisted(st: View, order: seq<string>, changes: Changes, io: Io, late: seq<Content>): View
    requires forall i | 0 <= i < |order| :: order[i] in changes
  {
    if st.loadError then st
    else
      match io
      case LockFails => st.(errors := st.errors + 1)
      case WriteFails(left) => st.(content := left, stamp := st.stamp + 1, errors := st.errors + 1)
      case Works =>
        var after := Land(st.(content := Parsed(ApplyBatch(Parse(st.content), order, changes)), stamp := st.stamp + 1), late);
        after.(lastStamp := after.stamp)
  }

  function WithSlot(st: View, key: string, change: Option<Cred>, io: Io, late: seq<Content>): View {
    Persisted(st.(data := ApplyOne(st.data, key, change)), [key], map[key := change], io, late)
  }

  function WithDefault(st: View, provider: string, accountID: string, io: Io, late: seq<Content>): View {
    match Promote(st.data, provider, accountID)
    case None => st
    case Some(p) =>
      BatchIsPromotion(st.data, provider, accountID);
      Persisted(st.(data := p.data), p.order, p.changes, io, late)
  }

  lemma WithDefaultOf(st: View, provider: string, accountID: string, p: Promotion, io: Io, late: seq<Content>)
    requires Promote(st.data, provider, accountID) == Some(p)
    ensures forall i | 0 <= i < |p.order| :: p.order[i] in p.changes
    ensures WithDefault(st, provider, accountID, io, late) == Persisted(st.(data := p.data), p.order, p.changes, io, late)
  {
    BatchIsPromotion(st.data, provider, accountID);
  }

  /** Logout: the removal, then a promotion when the default was logged out and one other account is left in the
      cache. The flag is its error return. */
  ghost function LoggedOut(st: View, key: string, io: Io, late: seq<Content>, io2: Io, late2: seq<Content>): (View, bool) {
    var removed := WithSlot(st, key, None, io, late);
    var rest := Accounts(removed.data, BaseOf(key));
    if AccountOf(key) != "" || IsMCPKey(key) || |rest| != 1 || AccountOf(Only(rest)) == "" then (removed, false)
    else
      (WithDefault(removed, BaseOf(key), AccountOf(Only(rest)), io2, late2),
       Promote(removed.data, BaseOf(key), AccountOf(Only(rest))).None?)
  }

  /** The promotion of a survivor fails exactly when the provider id is empty or the slot is spelled `p#default`, which
      only a hand edit of the file produces: Logout then reports an error and leaves no default. */
  lemma LogoutFailsExactly(st: View, key: string, io: Io, late: seq<Content>, io2: Io, late2: seq<Content>, survivor: string)
    requires AccountOf(key) == "" && !IsMCPKey(key) && AccountOf(survivor) != ""
    requires Accounts(st.data - {key}, BaseOf(key)) == {survivor}
    ensures LoggedOut(st, key, io, late, io2, late2).1 <==> BaseOf(key) == "" || AccountOf(survivor) == "default"
  {
    var removed := WithSlot(st, key, None, io, late);
    assert removed.data == st.data - {key};
    assert survivor in Accounts(removed.data, BaseOf(key));
    PromotableExactly(removed.data, survivor);
  }

  lemma PromotableExactly(d: Data, key: string)
    requires key in d && AccountOf(key) != ""
    ensures Promote(d, BaseOf(key), AccountOf(key)).Some? <==> BaseOf(key) != "" && AccountOf(key) != "default"
  {
    SplitParts(key);
    SlotKeySplit(key);
  }

  datatype Locked = NotFound | Declined(cred: Cred) | Wrote(cred: Cred) | Failed

  /** The outcome of a locked refresh, and the refresh tokens it presented to the provider. */
  datatype Attempt = Attempt(result: Locked, presented: seq<string>)

  function RefreshFailed(st: View, slot: string): View { st.(errors := st.errors + 1, keyErrors := st.keyErrors + {slot}) }

  /** The cache takes what was read under the lock. */
  function RefreshSynced(st: View, slot: string): View {
    st.(data := Parse(st.content), loadError := false, keyErrors := st.keyErrors - {slot})
  }

  /** The rotated credential goes to file and cache, then the stamp is adopted. */
  function RefreshWritten(st: View, slot: string, updated: Cred, late: seq<Content>): View {
    var current := Parse(st.content)[slot := updated];
    var written := Land(RefreshSynced(st, slot).(data := current, content := Parsed(current), stamp := st.stamp + 1), late);
    written.(lastStamp := written.stamp)
  }

  function RefreshedView(st: View, slot: string, granted: Option<OAuthCreds>, now: int, window: int, force: bool,
                         io: Io, late: seq<Content>): (View, Attempt)
  {
    var current := Parse(st.content);
    if io.LockFails? then (RefreshFailed(st, slot), Attempt(Failed, []))
    else if !Due(current, slot, now, window, force) then
      (RefreshSynced(st, slot),
       Attempt(if slot in current && current[slot].kind == OAuth then Declined(current[slot]) else NotFound, []))
    else
      var presented := [current[slot].refresh];
      if granted.None? then (RefreshFailed(st, slot), Attempt(Failed, presented))
      else if io.WriteFails? then
        (RefreshFailed(st, slot).(content := io.left, stamp := st.stamp + 1), Attempt(Failed, presented))
      else
        var updated := Refreshed(current[slot], granted.value);
        (RefreshWritten(st, slot, updated, late), Attempt(Wrote(updated), presented))
  }

  /** The outcome of a locked refresh, in fields, from any cache. It presents the token on file, and only that, if the slot
      holds an OAuth credential and it is forced, or the credential is expired or expires within the window. */
  lemma RefreshPresentsExactly(st: View, slot: string, granted: Option<OAuthCreds>, now: int, window: int, force: bool,
                               io: Io, late: seq<Content>)
    requires st.content.Parsed? && !io.LockFails? && slot in st.content.m && st.content.m[slot].kind == OAuth
    ensures var c, attempt := st.content.m[slot], RefreshedView(st, slot, granted, now, window, force, io, late).1;
            var due := force || (c.expires != 0 && c.expires <= now + (if window > 0 then window else 0));
            && attempt.presented == (if due then [c.refresh] else [])
            && (attempt.result == Declined(c) <==> !due)
            && (attempt.result.Wrote? <==> due && granted.Some? && io.Works?)
  {
  }

  /** A refresh that has nothing to do still brings the cache up to date with the file it read, and leaves the file. */
  lemma DeclinedRefreshSyncs(st: View, slot: string, granted: Option<OAuthCreds>, now: int, window: int, force: bool,
                             io: Io, late: seq<Content>)
    requires st.content.Parsed? && !io.LockFails?
    requires RefreshedView(st, slot, granted, now, window, force, io, late).1.presented == []
    ensures var t := RefreshedView(st, slot, granted, now, window, force, io, late).0;
            && t.data == st.content.m && t.content == st.content && t.stamp == st.stamp && t.lastStamp == st.lastStamp
            && !t.loadError && t.errors == st.errors && slot !in t.keyErrors
  {
  }

  /** One that writes leaves the rotated credential in file and cache, and every other slot as the file had it. */
  lemma WrittenRefreshRotates(st: View, slot: string, granted: OAuthCreds, now: int, window: int, force: bool, key: string)
    requires st.content.Parsed? && RefreshedView(st, slot, Some(granted), now, window, force, Works, []).1.result.Wrote?
    ensures var t := RefreshedView(st, slot, Some(granted), now, window, force, Works, []).0;
            && t.content == Parsed(t.data) && t.lastStamp == t.stamp == st.stamp + 1 && !t.loadError
            && slot in t.data && t.data[slot].access == granted.access && t.data[slot].refresh == granted.refresh
            && t.data[slot].expires == granted.expires
            && (key != slot ==> SameAt(st.content.m, t.data, key))
  {
    RefreshedExactly(st.content.m[slot], granted);
  }

  /** One that fails, at the lock, at the provider or at the write, leaves the cache and remembers the error for the slot. */
  lemma FailedRefreshKeepsCache(st: View, slot: string, granted: Option<OAuthCreds>, now: int, window: int, force: bool,
                                io: Io, late: seq<Content>)
    requires RefreshedView(st, slot, granted, now, window, force, io, late).1.result.Failed?
    ensures var t := RefreshedView(st, slot, granted, now, window, force, io, late).0;
            && t.data == st.data && t.lastStamp == st.lastStamp && slot in t.keyErrors && t.errors == st.errors + 1
            && (!io.WriteFails? ==> t.content == st.content && t.stamp == st.stamp)
  {
  }

  /** Once a load has failed at the lock, nothing is written to the file until one succeeds. */
  lemma FailedLoadBlocksWrites(st: View, between: seq<Content>, order: seq<string>, changes: Changes, io: Io, late: seq<Content>)
    requires forall i | 0 <= i < |order| :: order[i] in changes
    ensures var failed := Reloaded(st, LockFails, between); Persisted(failed, order, changes, io, late) == failed
    ensures var loaded := Reloaded(st, Works, between);
            Persisted(loaded, order, changes, Works, []).stamp == loaded.stamp + 1
  {
  }

  // ---- the listing order ----

  /** What AccountsForProvider promises: all accounts of the provider, once, the default first. */
  ghost predicate IsListing(out: seq<string>, data: Data, provider: string) {
    && (forall key :: key in out <==> key in Accounts(data, provider))
    && (forall i, j | 0 <= i < j < |out| :: out[i] != out[j] && !Before(out[j], out[i]))
  }

  lemma BeforeTransitive(a: string, b: string, c: string)
    requires Before(a, b) && Before(b, c)
    ensures Before(a, c)
  {
    if AccountOf(a) != "" {
      LessTransitive(AccountOf(a), AccountOf(b), AccountOf(c));
    }
  }

  lemma BeforeAsymmetric(a: string, b: string)
    requires Before(a, b)
    ensures !Before(b, a)
  {
    if (AccountOf(a) == "") == (AccountOf(b) == "") {
      LessAsymmetric(AccountOf(a), AccountOf(b));
    }
  }

  method InsertByAccount(out: seq<string>, key: string) returns (r: seq<string>)
    requires key !in out
    requires forall i, j | 0 <= i < j < |out| :: out[i] != out[j] && !Before(out[j], out[i])
    ensures forall k :: k in r <==> k in out || k == key
    ensures forall i, j | 0 <= i < j < |r| :: r[i] != r[j] && !Before(r[j], r[i])
  {
    var at := 0;
    while at < |out| && !Before(key, out[at])
      invariant at <= |out|
      invariant forall i | 0 <= i < at :: !Before(key, out[i])
    {
      at := at + 1;
    }
    r := out[..at] + [key] + out[at..];
    forall j | at <= j < |out| ensures !Before(out[j], key) {
      if Before(out[j], key) {
        BeforeAsymmetric(key, out[at]);
        BeforeTransitive(out[j], key, out[at]);
      }
    }
    forall i, j | 0 <= i < j < |r| ensures r[i] != r[j] && !Before(r[j], r[i]) {
      assert r[i] == if i < at then out[i] else if i == at then key else out[i - 1];
      assert r[j] == if j < at then out[j] else if j == at then key else out[j - 1];
    }
  }

  // ---- the objects ----

  class AuthFile {
    var content: Content
    var stamp: nat

    constructor ()
      ensures content == Parsed(map[]) && stamp == 1
    {
      content, stamp := Parsed(map[]), 1;
    }

    method Write(c: Content)
      modifies this
      ensures content == c && stamp == old(stamp) + 1
    {
      content, stamp := c, stamp + 1;
    }

    /** Other processes' locked writes, in order. */
    method Foreign(writes: seq<Content>)
      modifies this
      ensures stamp == old(stamp) + |writes|
      ensures content == if |writes| == 0 then old(content) else writes[|writes| - 1]
    {
      for i := 0 to |writes|
        invariant stamp == old(stamp) + i
        invariant content == if i == 0 then old(content) else writes[i - 1]
      {
        Write(writes[i]);
      }
    }
  }

  class AuthStorage {
    const file: AuthFile
    var data: Data
    var lastStamp: nat
    var loadError: bool
    var errors: nat
    var keyErrors: set<string>

    ghost function State(): View
      reads this, file
    {
      View(data, lastStamp, loadError, errors, keyErrors, file.content, file.stamp)
    }

    constructor (file: AuthFile, io: Io, between: seq<Content>)
      modifies file
      ensures this.file == file
      ensures State() == Reloaded(View(map[], 0, false, 0, {}, old(file.content), old(file.stamp)), io, between)
    {
      this.file := file;
      data, lastStamp, loadError, errors, keyErrors := map[], 0, false, 0, {};
      new;
      Reload(io, between);
    }

    method Reload(io: Io, between: seq<Content>)
      modifies this, file
      ensures State() == Reloaded(old(State()), io, between)
    {
      var stamp := file.stamp;
      file.Foreign(between);
      if io.LockFails? {
        loadError, errors := true, errors + 1;
        return;
      }
      var unreadable := false;
      match file.content {
        case Parsed(m) => data := m;
        case Corrupt => unreadable := true;
      }
      lastStamp, loadError := stamp, false;
      if unreadable {
        errors := errors + 1;
      }
    }

    method ReloadIfStale(before: seq<Content>, io: Io, between: seq<Content>) returns (did: bool)
      modifies this, file
      ensures State() == ReloadedIfStale(old(State()), before, io, between)
      ensures did <==> old(file.stamp) != old(lastStamp)
    {
      var last, stamp := lastStamp, file.stamp;
      file.Foreign(before);
      if stamp == last {
        return false;
      }
      Reload(io, between);
      did := true;
    }

    method PersistChanges(order: seq<string>, changes: Changes, io: Io, late: seq<Content>)
      requires forall i | 0 <= i < |order| :: order[i] in changes
      modifies this`lastStamp, this`errors, file
      ensures State() == Persisted(old(State()), order, changes, io, late)
    {
      if loadError {
        return;
      }
      if io.LockFails? {
        errors := errors + 1;
        return;
      }
      var current := Parse(file.content);
      for i := 0 to |order|
        invariant current == ApplyBatch(Parse(old(file.content)), order[..i], changes)
        invariant unchanged(this) && unchanged(file)
      {
        assert order[..i + 1][..i] == order[..i];
        match changes[order[i]] {
          case Some(cred) => current := current[order[i] := cred];
          case None => current := current - {order[i]};
        }
      }
      assert order[..|order|] == order;
      if io.WriteFails? {
        file.Write(io.left);
        errors := errors + 1;
        return;
      }
      file.Write(Parsed(current));
      file.Foreign(late);
      lastStamp := file.stamp;
    }

    method PersistProviderChange(provider: string, change: Option<Cred>, io: Io, late: seq<Content>)
      modifies this`lastStamp, this`errors, file
      ensures State() == Persisted(old(State()), [provider], map[provider := change], io, late)
    {
      if loadError {
        return;
      }
      if io.LockFails? {
        errors := errors + 1;
        return;
      }
      var current := Parse(file.content);
      assert [provider][..0] == [] && ApplyBatch(current, [], map[provider := change]) == current;
      match change {
        case Some(cred) => current := current[provider := cred];
        case None => current := current - {provider};
      }
      if io.WriteFails? {
        file.Write(io.left);
        errors := errors + 1;
        return;
      }
      file.Write(Parsed(current));
      file.Foreign(late);
      lastStamp := file.stamp;
    }

    method Set(provider: string, cred: Cred, io: Io, late: seq<Content>)
      modifies this, file
      ensures State() == WithSlot(old(State()), provider, Some(cred), io, late)
    {
      data := data[provider := cred];
      PersistProviderChange(provider, Some(cred), io, late);
    }

    method Remove(provider: string, io: Io, late: seq<Content>)
      modifies this, file
      ensures State() == WithSlot(old(State()), provider, None, io, late)
    {
      data := data - {provider};
      PersistProviderChange(provider, None, io, late);
    }

    method AccountsForProvider(provider: string) returns (out: seq<string>)
      ensures IsListing(out, data, provider)
    {
      out := [];
      var todo := data.Keys;
      while todo != {}
        invariant todo <= data.Keys
        invariant forall key :: key in out <==> key in Accounts(data, provider) && key !in todo
        invariant forall i, j | 0 <= i < j < |out| :: out[i] != out[j] && !Before(out[j], out[i])
      {
        var key :| key in todo;
        todo := todo - {key};
        if IsMCPKey(key) {
          continue;
        }
        if BaseOf(key) != provider {
          continue;
        }
        out := InsertByAccount(out, key);
      }
    }

    method FreeSlotLocked(provider: string, cred: Cred, vacated: string) returns (slot: string)
      ensures slot == FreeSlot(data, provider, cred, vacated)
    {
      var taken := data.Keys - {vacated};
      var id := AccountID(cred);
      if id == "" {
        id := Sanitize(cred.title);
      }
      if id != "" && id != "default" && SlotKey(provider, id) !in taken {
        return SlotKey(provider, id);
      }
      slot := NextNumberedSlot(provider, taken);
    }

    method SetDefaultAccount(provider: string, accountID: string, io: Io, late: seq<Content>)
        returns (demoted: string, failed: bool)
      modifies this, file
      ensures State() == WithDefault(old(State()), provider, accountID, io, late)
      ensures failed <==> Promote(old(data), provider, accountID).None?
      ensures demoted == if failed then "" else Promote(old(data), provider, accountID).value.demoted
    {
      if provider == "" || accountID == "" || accountID == "default" {
        return "", true;
      }
      var from := SlotKey(provider, accountID);
      if from !in data {
        return "", true;
      }
      var promoted := data[from];
      var order: seq<string>, changes: Changes := [], map[];
      var hadDefault := provider in data;
      demoted := "";
      ghost var start := State();
      if hadDefault {
        demoted := FreeSlotLocked(provider, data[provider], from);
        PromoteSwaps(data, provider, accountID, from, demoted);
      } else {
        PromoteMoves(data, provider, accountID, from);
      }
      var oldDefault := if hadDefault then data[provider] else promoted;
      data := data - {from};
      order, changes := order + [from], changes[from := None];
      if hadDefault {
        data := data[demoted := oldDefault];
        order, changes := order + [demoted], changes[demoted := Some(oldDefault)];
      }
      data := data[provider := promoted];
      order, changes := order + [provider], changes[provider := Some(promoted)];
      assert order == if hadDefault then [from, demoted, provider] else [from, provider];
      WithDefaultOf(start, provider, accountID, Promotion(data, demoted, order, changes), io, late);
      PersistChanges(order, changes, io, late);
      failed := false;
    }

    /** The scan of assignSlot for an account of the same identity, in listing order. */
    method FindIdentity(existing: seq<string>, provider: string, id: string) returns (found: bool, slot: string)
      requires IsListing(existing, data, provider)
      ensures found <==> Matches(data, provider, id) != {}
      ensures found ==> slot in Matches(data, provider, id)
      ensures found ==> forall other | other in Matches(data, provider, id) :: !Before(other, slot)
    {
      for i := 0 to |existing|
        invariant forall j | 0 <= j < i :: existing[j] !in Matches(data, provider, id)
      {
        assert existing[i] in Accounts(data, provider);
        if AccountID(data[existing[i]]) == id {
          forall other | other in Matches(data, provider, id) ensures !Before(other, existing[i]) {
            assert other in existing;
            var j :| 0 <= j < |existing| && existing[j] == other;
            if j == i && Before(other, other) {
              BeforeAsymmetric(other, other);
            }
          }
          assert existing[i] in Matches(data, provider, id);
          return true, existing[i];
        }
      }
      assert forall key | key in Matches(data, provider, id) :: key in existing;
      assert Matches(data, provider, id) == {};
      return false, "";
    }

    method AssignSlot(provider: string, creds: OAuthCreds, opts: LoginOptions) returns (slot: string)
      ensures Assigned(data, provider, creds, opts, slot)
      ensures Sanitize(opts.accountName) !in {"", "default"} ==> slot == provider + "#" + Sanitize(opts.accountName)
      ensures Sanitize(opts.accountName) == "" && Accounts(data, provider) == {} ==> slot == provider
      ensures Sanitize(opts.accountName) == "" && Identity(creds) == "" && opts.add && HasDefault(data, provider) ==>
                slot !in Accounts(data, provider)
    {
      var id := Identity(creds);
      var existing := AccountsForProvider(provider);
      var name := Sanitize(opts.accountName);
      if name != "" {
        return SlotKey(provider, name);
      }
      var hasDefault := false;
      for i := 0 to |existing|
        invariant hasDefault <==> exists j :: 0 <= j < i && AccountOf(existing[j]) == ""
      {
        if AccountOf(existing[i]) == "" {
          hasDefault := true;
          break;
        }
      }
      ListingDefault(existing, data, provider);
      if !hasDefault {
        return provider;
      }
      if id != "" {
        var found, same := FindIdentity(existing, provider, id);
        if found {
          return same;
        }
        return SlotKey(provider, id);
      }
      if !opts.add {
        return provider;
      }
      var taken := set key | key in existing;
      assert taken == Accounts(data, provider);
      slot := NextNumberedSlot(provider, taken);
    }

    /** LoginAccountOpts, from the credential the provider's login flow returned. */
    method LoginAccount(provider: string, creds: OAuthCreds, opts: LoginOptions, io: Io, late: seq<Content>)
        returns (slot: string)
      modifies this, file
      ensures Assigned(old(data), provider, creds, opts, slot)
      ensures State() == WithSlot(old(State()), slot, Some(LoginCred(creds)), io, late)
    {
      slot := AssignSlot(provider, creds, opts);
      Set(slot, LoginCred(creds), io, late);
    }

    method StoreAccount(provider: string, accountName: string, cred: Cred, io: Io, late: seq<Content>)
        returns (slot: string)
      modifies this, file
      ensures slot == StoreSlot(old(data), provider, accountName)
      ensures State() == WithSlot(old(State()), slot, Some(cred.(title := accountName)), io, late)
    {
      var existing := AccountsForProvider(provider);
      var hasDefault := exists i :: 0 <= i < |existing| && AccountOf(existing[i]) == "";
      ListingDefault(existing, data, provider);
      slot := provider;
      if hasDefault {
        var id := Sanitize(accountName);
        if id == "" {
          var taken := set key | key in existing;
          assert taken == Accounts(data, provider);
          slot := NextNumberedSlot(provider, taken);
        } else {
          slot := SlotKey(provider, id);
        }
      }
      Set(slot, cred.(title := accountName), io, late);
    }

    /** Logout removes the slot and, after a default, promotes a sole survivor. */
    method Logout(provider: string, io: Io, late: seq<Content>, io2: Io, late2: seq<Content>) returns (failed: bool)
      modifies this, file
      ensures (State(), failed) == LoggedOut(old(State()), provider, io, late, io2, late2)
    {
      Remove(provider, io, late);
      var base, acctID := BaseOf(provider), AccountOf(provider);
      if acctID != "" || IsMCPKey(provider) {
        return false;
      }
      var rest := AccountsForProvider(base);
      ListingSize(rest, data, base);
      if |rest| != 1 {
        return false;
      }
      assert rest[0] in Accounts(data, base) && Only(Accounts(data, base)) == rest[0];
      if AccountOf(rest[0]) == "" {
        return false;
      }
      var demoted;
      demoted, failed := SetDefaultAccount(base, AccountOf(rest[0]), io2, late2);
    }

    /** refreshOAuthLocked: read, decide, rotate and write, all under the file lock. `granted` is what the
        provider answers if it is asked. */
    method RefreshOAuthLocked(slot: string, granted: Option<OAuthCreds>, now: int, window: int, force: bool,
                              io: Io, late: seq<Content>) returns (attempt: Attempt)
      modifies this, file
      ensures (State(), attempt) == RefreshedView(old(State()), slot, granted, now, window, force, io, late)
    {
      if io.LockFails? {
        errors, keyErrors := errors + 1, keyErrors + {slot};
        return Attempt(Failed, []);
      }
      var current := Parse(file.content);
      var result, presented: seq<string> := NotFound, [];
      if slot in current && current[slot].kind == OAuth {
        var cred := current[slot];
        if !force && !NeedsRefresh(cred, now, window) {
          result := Declined(cred);
        } else {
          presented := [cred.refresh];
          if granted.None? {
            errors, keyErrors := errors + 1, keyErrors + {slot};
            return Attempt(Failed, presented);
          }
          var updated := CarryAccountMetadata(FromOAuth(granted.value), cred);
          current := current[slot := updated];
          if io.WriteFails? {
            file.Write(io.left);
            errors, keyErrors := errors + 1, keyErrors + {slot};
            return Attempt(Failed, presented);
          }
          file.Write(Parsed(current));
          result := Wrote(updated);
        }
      }
      ghost var due := Due(Parse(old(file.content)), slot, now, window, force);
      assert result.Wrote? <==> due;
      if result.Wrote? {
        file.Foreign(late);
      }
      data, loadError := current, false;
      if result.Wrote? {
        lastStamp := file.stamp;
      }
      keyErrors := keyErrors - {slot};
      assert State() == if due then RefreshWritten(old(State()), slot, result.cred, late) else RefreshSynced(old(State()), slot);
      attempt := Attempt(result, presented);
    }
  }

  lemma WithSlotCache(st: View, key: string, change: Option<Cred>, io: Io, late: seq<Content>)
    ensures WithSlot(st, key, change, io, late).data == ApplyOne(st.data, key, change)
  {
  }

  lemma WithDefaultCache(st: View, provider: string, accountID: string, io: Io, late: seq<Content>)
    ensures WithDefault(st, provider, accountID, io, late).data ==
            match Promote(st.data, provider, accountID) case None => st.data case Some(p) => p.data
  {
  }

  /** Whatever the file does, the cache after a logout is the policy's. */
  lemma LogoutCache(st: View, key: string, io: Io, late: seq<Content>, io2: Io, late2: seq<Content>)
    ensures LoggedOut(st, key, io, late, io2, late2).0.data == AfterLogout(st.data, key)
  {
    var removed := WithSlot(st, key, None, io, late);
    WithSlotCache(st, key, None, io, late);
    var rest := Accounts(removed.data, BaseOf(key));
    if |rest| == 1 {
      WithDefaultCache(removed, BaseOf(key), AccountOf(Only(rest)), io2, late2);
    }
  }

  lemma ListingDefault(out: seq<string>, data: Data, provider: string)
    requires IsListing(out, data, provider)
    ensures HasDefault(data, provider) <==> exists j :: 0 <= j < |out| && AccountOf(out[j]) == ""
  {
    if HasDefault(data, provider) {
      var key :| key in Accounts(data, provider) && AccountOf(key) == "";
      assert key in out;
    }
  }

  lemma {:induction false} DistinctSize(out: seq<string>)
    requires forall i, j | 0 <= i < j < |out| :: out[i] != out[j]
    ensures |set key | key in out| == |out|
  {
    if |out| > 0 {
      var front, last := out[..|out| - 1], out[|out| - 1];
      DistinctSize(front);
      assert out == front + [last];
      assert (set key | key in out) == (set key | key in front) + {last};
    }
  }

  lemma ListingSize(out: seq<string>, data: Data, provider: string)
    requires IsListing(out, data, provider)
    ensures |out| == |Accounts(data, provider)|
    ensures |out| == 1 ==> Accounts(data, provider) == {out[0]}
  {
    DistinctSize(out);
    assert (set key | key in out) == Accounts(data, provider);
  }
}
