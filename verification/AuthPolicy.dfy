/** The slot policies of login, store and logout (pkg/auth/authstorage.go) and the invariant they are written
    for: a provider that holds accounts keeps a default one. */
module AuthPolicy {
  import opened Text
  import opened Slots
  import opened Credentials
  import opened AuthData
  import opened Wrappers

  datatype LoginOptions = LoginOptions(add: bool, accountName: string)

  /** The provider's accounts that carry the identity `id`. */
  function Matches(data: Data, provider: string, id: string): set<string> {
    set key | key in Accounts(data, provider) && AccountID(data[key]) == id
  }

  /** The slots assignSlot may choose: one, unless two matching accounts tie in the listing order. */
  ghost predicate Assigned(data: Data, provider: string, creds: OAuthCreds, opts: LoginOptions, slot: string) {
    var id, name := Identity(creds), Sanitize(opts.accountName);
    var matches := Matches(data, provider, id);
    if name != "" then slot == SlotKey(provider, name)
    else if !HasDefault(data, provider) then slot == provider
    else if id != "" && matches != {} then slot in matches && forall other | other in matches :: !Before(other, slot)
    else if id != "" then slot == SlotKey(provider, id)
    else if !opts.add then slot == provider
    else slot == NumberedSlot(provider, FirstFree(provider, Accounts(data, provider), 2))
  }

  function LoginCred(creds: OAuthCreds): Cred { FromOAuth(creds).(title := LabelFrom(creds)) }

  function StoreSlot(data: Data, provider: string, name: string): string {
    if !HasDefault(data, provider) then provider
    else if Sanitize(name) == "" then NumberedSlot(provider, FirstFree(provider, Accounts(data, provider), 2))
    else SlotKey(provider, Sanitize(name))
  }

  ghost function Only(s: set<string>): (x: string)
    requires |s| == 1
    ensures s == {x}
  {
    var x :| x in s;
    assert |s - {x}| == 0;
    x
  }

  /** Logout: remove the slot; after a default, promote a sole survivor. */
  ghost function AfterLogout(data: Data, key: string): Data {
    var d := data - {key};
    var rest := Accounts(d, BaseOf(key));
    if AccountOf(key) != "" || IsMCPKey(key) || |rest| != 1 || AccountOf(Only(rest)) == "" then d
    else
      match Promote(d, BaseOf(key), AccountOf(Only(rest)))
      case None => d
      case Some(p) => p.data
  }

  // ---- runs ----

  datatype Op =
    | Login(provider: string, creds: OAuthCreds, opts: LoginOptions, slot: string)
    | Store(provider: string, name: string, cred: Cred)
    | SetDefault(provider: string, accountID: string)
    | Logout(key: string)

  ghost predicate Step(d: Data, op: Op, e: Data) {
    match op
    case Login(p, creds, opts, slot) => Assigned(d, p, creds, opts, slot) && e == d[slot := LoginCred(creds)]
    case Store(p, name, cred) => e == d[StoreSlot(d, p, name) := cred.(title := name)]
    case SetDefault(p, a) => e == (match Promote(d, p, a) case None => d case Some(pr) => pr.data)
    case Logout(key) => e == AfterLogout(d, key)
  }

  ghost predicate IsProviderID(p: string) { p != "" && IsProvider(p) && !IsMCPKey(p) }

  /** Operations name a real provider id. */
  ghost predicate Sensible(op: Op) {
    match op
    case Login(p, _, _, _) => IsProviderID(p)
    case Store(p, _, _) => IsProviderID(p)
    case SetDefault(p, _) => IsProviderID(p)
    case Logout(key) => key != "" && key != "#"
  }

  ghost predicate Kept(d: Data, p: string) {
    Accounts(d, p) != {} ==> p in d
  }

  ghost predicate KeepsDefaults(d: Data) {
    forall p | IsProviderID(p) :: Kept(d, p)
  }

  /** What a caller can check beforehand: a login under an explicit name other than "default" needs an existing default,
      and a stored default is logged out only with at most one other account left. */
  ghost predicate Safe(d: Data, op: Op) {
    match op
    case Login(p, _, opts, _) => Sanitize(opts.accountName) in {"", "default"} || HasDefault(d, p)
    case Logout(key) => key in d && AccountOf(key) == "" && !IsMCPKey(key) ==> |Accounts(d, key)| <= 2
    case _ => true
  }

  lemma KeptFrame(d: Data, e: Data, p: string)
    requires Kept(d, p) && Accounts(e, p) <= Accounts(d, p) && (p in d ==> p in e)
    ensures Kept(e, p)
  {
  }

  /** Writing one slot of `p`: other providers are not concerned. */
  lemma SetSlotKept(d: Data, p: string, slot: string, cred: Cred, q: string)
    requires IsProviderID(p) && IsProviderID(q) && BaseOf(slot) == p && Kept(d, q)
    requires q != p || slot == p || p in d
    ensures Kept(d[slot := cred], q)
  {
    if q != p {
      assert Accounts(d[slot := cred], q) == Accounts(d, q);
    }
  }

  lemma SetSlotExactly(d: Data, p: string, slot: string, cred: Cred)
    requires IsProviderID(p) && Canonical(slot) && BaseOf(slot) == p && WellFormed(d) && KeepsDefaults(d)
    ensures WellFormed(d[slot := cred])
    ensures KeepsDefaults(d[slot := cred]) <==> slot == p || HasDefault(d, p)
  {
    HasDefaultIsBare(d, p);
    if slot == p || p in d {
      forall q | IsProviderID(q) ensures Kept(d[slot := cred], q) {
        SetSlotKept(d, p, slot, cred, q);
      }
    } else {
      AccountSlot(p, AccountOf(slot));
      assert slot in Accounts(d[slot := cred], p);
      assert !Kept(d[slot := cred], p);
    }
  }

  lemma AssignedBelongs(d: Data, p: string, creds: OAuthCreds, opts: LoginOptions, slot: string)
    requires IsProviderID(p) && WellFormed(d) && Assigned(d, p, creds, opts, slot)
    ensures Canonical(slot) && BaseOf(slot) == p
    ensures slot == p || HasDefault(d, p) <==> Sanitize(opts.accountName) in {"", "default"} || HasDefault(d, p)
  {
    CanonicalSlot(p, Sanitize(opts.accountName));
    CanonicalSlot(p, Identity(creds));
    CanonicalSlot(p, "");
    CanonicalSlot(p, AccountName(FirstFree(p, Accounts(d, p), 2)));
    assert slot in Accounts(d, p) ==> Canonical(slot);
  }

  /** A login under a name goes to the slot of that name, and changes no other: a default stays as it is. */
  lemma NamedLoginIsApart(d: Data, p: string, creds: OAuthCreds, opts: LoginOptions, slot: string, key: string)
    requires IsProviderID(p) && Assigned(d, p, creds, opts, slot) && Sanitize(opts.accountName) !in {"", "default"}
    ensures slot == p + "#" + Sanitize(opts.accountName)
    ensures BaseOf(slot) == p && AccountOf(slot) == Sanitize(opts.accountName)
    ensures slot != p && (key != slot ==> SameAt(d, d[slot := LoginCred(creds)], key))
  {
    SplitSlotKey(p, Sanitize(opts.accountName));
    assert |slot| > |p|;
  }

  /** A login without name and identity, with a default: with `add` it takes a slot nobody has, without it the default. */
  lemma NamelessLogin(d: Data, p: string, creds: OAuthCreds, add: bool, slot: string)
    requires IsProviderID(p) && WellFormed(d) && p in d && Identity(creds) == ""
    requires Assigned(d, p, creds, LoginOptions(add, ""), slot)
    ensures if add then slot !in Accounts(d, p) && slot !in d && BaseOf(slot) == p && AccountOf(slot) != "" else slot == p
  {
    HasDefaultIsBare(d, p);
    assert Sanitize("") == "";
    if add {
      var name := AccountName(FirstFree(p, Accounts(d, p), 2));
      assert name[0] == 'a' && |name| > 7;
      SplitSlotKey(p, name);
      AccountSlot(p, name);
    }
  }

  /** A login with an identity, with a default: the default's own goes to the default, a new one to the slot it spells. */
  lemma IdentifiedLogin(d: Data, p: string, creds: OAuthCreds, add: bool, slot: string)
    requires IsProviderID(p) && WellFormed(d) && p in d && Identity(creds) != ""
    requires Assigned(d, p, creds, LoginOptions(add, ""), slot)
    ensures AccountID(d[p]) == Identity(creds) ==> slot == p
    ensures Matches(d, p, Identity(creds)) == {} && Identity(creds) != "default" ==> slot == p + "#" + Identity(creds)
  {
    HasDefaultIsBare(d, p);
    AccountSlot(p, "");
    SplitSlotKey(p, "");
    assert Sanitize("") == "";
    if AccountID(d[p]) == Identity(creds) {
      assert p in Matches(d, p, Identity(creds));
      DefaultComesFirst(p, slot);
    }
  }

  lemma DefaultComesFirst(p: string, slot: string)
    requires IsProviderID(p) && Canonical(slot) && BaseOf(slot) == p && !Before(p, slot)
    ensures slot == p
  {
    SplitSlotKey(p, "");
  }

  /** A logout removes its slot and, but for the promotion of a sole survivor, nothing else. */
  lemma LogoutRemoves(d: Data, p: string)
    requires IsProviderID(p) && WellFormed(d) && p in d && |Accounts(d, p)| != 2
    ensures AfterLogout(d, p) == d - {p}
  {
    SplitSlotKey(p, "");
    AccountSlot(p, "");
    AccountsWithout(d, p, p);
    assert p in Accounts(d, p);
    assert |Accounts(d, p) - {p}| == |Accounts(d, p)| - 1;
  }

  /** A first login without a name becomes the default, whatever its identity. */
  lemma FirstLoginIsDefault(d: Data, p: string, creds: OAuthCreds, add: bool, slot: string)
    requires Accounts(d, p) == {} && Assigned(d, p, creds, LoginOptions(add, ""), slot)
    ensures slot == p
  {
    assert Sanitize("") == "";
  }

  /** What is stored for a login: the grant's tokens and account data, and the label they give. */
  lemma LoginStores(creds: OAuthCreds)
    ensures var c := LoginCred(creds);
            && c.kind == OAuth && c.access == creds.access && c.refresh == creds.refresh && c.expires == creds.expires
            && c.extra == creds.extra && c.title == LabelFrom(creds) && AccountID(c) == Identity(creds)
  {
    LiftKeepsIdentity(LoginCred(creds));
  }

  /** Storing an account with a default present leaves the default alone: a named one goes to the slot of its name, an unnamed
      one to a slot nobody has. */
  lemma StoreIsApart(d: Data, p: string, name: string, cred: Cred)
    requires IsProviderID(p) && WellFormed(d)
    ensures p !in d ==> StoreSlot(d, p, name) == p
    ensures p in d && Sanitize(name) !in {"", "default"} ==> StoreSlot(d, p, name) == p + "#" + Sanitize(name)
    ensures p in d && Sanitize(name) == "" ==> StoreSlot(d, p, name) !in d && BaseOf(StoreSlot(d, p, name)) == p
    ensures p in d && Sanitize(name) != "default" ==>
              StoreSlot(d, p, name) != p && d[StoreSlot(d, p, name) := cred][p] == d[p]
  {
    HasDefaultIsBare(d, p);
    var numbered := AccountName(FirstFree(p, Accounts(d, p), 2));
    assert numbered[0] == 'a' && |numbered| > 7;
    SplitSlotKey(p, numbered);
    AccountSlot(p, numbered);
  }

  /** The one name that does reach the default is "default". */
  lemma StoredAsDefault(d: Data, p: string, cred: Cred)
    ensures StoreSlot(d, p, "default") == p
  {
    assert Sanitize("default") == "default";
  }

  lemma StoreKeeps(d: Data, p: string, name: string, cred: Cred)
    requires IsProviderID(p) && WellFormed(d) && KeepsDefaults(d)
    ensures WellFormed(d[StoreSlot(d, p, name) := cred]) && KeepsDefaults(d[StoreSlot(d, p, name) := cred])
  {
    CanonicalSlot(p, "");
    CanonicalSlot(p, Sanitize(name));
    CanonicalSlot(p, AccountName(FirstFree(p, Accounts(d, p), 2)));
    SetSlotExactly(d, p, StoreSlot(d, p, name), cred);
  }

  lemma PromoteKeepsOther(d: Data, p: string, a: string, q: string)
    requires IsProviderID(p) && IsProviderID(q) && q != p && Promote(d, p, a).Some? && Kept(d, q)
    ensures Kept(Promote(d, p, a).value.data, q)
  {
    PromotionLeavesOthers(d, p, a, q);
    if q in d {
      AccountSlot(q, "");
      assert q in Accounts(d, q);
    }
  }

  lemma PromoteKeepsForm(d: Data, p: string, a: string)
    requires IsProviderID(p) && WellFormed(d) && Promote(d, p, a).Some?
    ensures WellFormed(Promote(d, p, a).value.data) && p in Promote(d, p, a).value.data
  {
    var e := Promote(d, p, a).value.data;
    PromotionMoves(d, p, a);
    CanonicalSlot(p, "");
    CanonicalSlot(p, a);
    forall key | key in e && !IsMCPKey(key) ensures Canonical(key) {
      if key !in d {
        assert key == p || key == Promote(d, p, a).value.demoted;
      }
    }
  }

  lemma PromoteKeeps(d: Data, p: string, a: string)
    requires IsProviderID(p) && WellFormed(d) && Promote(d, p, a).Some?
    requires forall q | IsProviderID(q) && q != p :: Kept(d, q)
    ensures WellFormed(Promote(d, p, a).value.data) && KeepsDefaults(Promote(d, p, a).value.data)
  {
    PromoteKeepsForm(d, p, a);
    forall q | IsProviderID(q) ensures Kept(Promote(d, p, a).value.data, q) {
      if q != p {
        PromoteKeepsOther(d, p, a, q);
      }
    }
  }

  /** Removing a slot that is no stored default keeps every default. */
  lemma RemoveKeeps(d: Data, key: string)
    requires WellFormed(d) && KeepsDefaults(d)
    requires !(key in d && AccountOf(key) == "" && !IsMCPKey(key))
    ensures WellFormed(d - {key}) && KeepsDefaults(d - {key})
  {
    forall p | IsProviderID(p) ensures Kept(d - {key}, p) {
      SplitSlotKey(p, "");
      assert Kept(d, p);
      KeptFrame(d, d - {key}, p);
    }
  }

  /** With the default gone, every other provider still has its own. */
  lemma RemoveDefaultOthers(d: Data, p: string)
    requires KeepsDefaults(d) && WellFormed(d)
    ensures WellFormed(d - {p})
    ensures forall q | IsProviderID(q) && q != p :: Kept(d - {p}, q)
  {
    forall q | IsProviderID(q) && q != p ensures Kept(d - {p}, q) {
      assert Kept(d, q);
      KeptFrame(d, d - {p}, q);
    }
  }

  lemma AccountsWithout(d: Data, p: string, key: string)
    ensures Accounts(d - {key}, p) == Accounts(d, p) - {key}
  {
  }

  /** The sole survivor of a default logout is promoted, unchanged. */
  lemma SurvivorPromoted(d: Data, p: string, survivor: string)
    requires IsProviderID(p) && WellFormed(d) && p in d && survivor != p && Accounts(d, p) == {p, survivor}
    ensures AfterLogout(d, p) == (d - {p, survivor})[p := d[survivor]]
    ensures Promote(d - {p}, p, AccountOf(survivor)).Some?
    ensures AfterLogout(d, p) == Promote(d - {p}, p, AccountOf(survivor)).value.data
  {
    SplitSlotKey(p, "");
    var e := d - {p};
    AccountsWithout(d, p, p);
    assert Accounts(e, p) == {survivor};
    assert survivor in Accounts(d, p);
    assert Canonical(survivor) && BaseOf(survivor) == p;
    if AccountOf(survivor) == "" {
      CanonicalDefault(survivor);
    }
    SlotKeySplit(survivor);
    assert SlotKey(p, AccountOf(survivor)) == survivor;
    assert e - {survivor} == d - {p, survivor};
  }

  lemma LogoutDefaultExactly(d: Data, p: string)
    requires IsProviderID(p) && WellFormed(d) && KeepsDefaults(d) && p in d
    ensures WellFormed(AfterLogout(d, p))
    ensures KeepsDefaults(AfterLogout(d, p)) <==> |Accounts(d, p)| <= 2
  {
    var e := d - {p};
    var A := Accounts(d, p);
    AccountSlot(p, "");
    SplitSlotKey(p, "");
    AccountsWithout(d, p, p);
    assert p in A;
    RemoveDefaultOthers(d, p);
    if |A| == 2 {
      var survivor := Only(A - {p});
      assert A == {p} + (A - {p});
      SurvivorPromoted(d, p, survivor);
      PromoteKeeps(e, p, AccountOf(survivor));
    } else {
      assert AfterLogout(d, p) == e;
      if |A| <= 1 {
        assert |A - {p}| == 0;
        assert Kept(e, p);
      } else {
        assert |A - {p}| == |A| - 1;
        assert !Kept(e, p);
      }
    }
  }

  lemma LogoutExactly(d: Data, key: string)
    requires key != "" && key != "#" && WellFormed(d) && KeepsDefaults(d)
    ensures WellFormed(AfterLogout(d, key))
    ensures KeepsDefaults(AfterLogout(d, key)) <==>
            (key in d && AccountOf(key) == "" && !IsMCPKey(key) ==> |Accounts(d, key)| <= 2)
  {
    if key in d && AccountOf(key) == "" && !IsMCPKey(key) {
      CanonicalDefault(key);
      SplitParts(key);
      LogoutDefaultExactly(d, key);
    } else {
      RemoveKeeps(d, key);
      LogoutOfNoDefault(d, key);
    }
  }

  lemma LogoutOfNoDefault(d: Data, key: string)
    requires key != "" && key != "#" && WellFormed(d) && KeepsDefaults(d)
    requires !(key in d && AccountOf(key) == "" && !IsMCPKey(key))
    ensures AfterLogout(d, key) == d - {key}
  {
    var e, base := d - {key}, BaseOf(key);
    var rest := Accounts(e, base);
    if AccountOf(key) == "" && !IsMCPKey(key) && |rest| == 1 {
      SplitParts(key);
      assert base != "";
      if IsMCPKey(base) {
        MCPHasNoAccounts(e, base);
      } else {
        assert Kept(d, base);
        assert rest == Accounts(d, base);
        assert base in rest by {
          AccountSlot(base, "");
        }
        SplitSlotKey(base, "");
      }
    }
  }

  /** Each step keeps the invariant exactly when it is safe. */
  lemma StepKeepsExactly(d: Data, op: Op, e: Data)
    requires WellFormed(d) && KeepsDefaults(d) && Step(d, op, e) && Sensible(op)
    ensures WellFormed(e)
    ensures KeepsDefaults(e) <==> Safe(d, op)
  {
    match op
    case Login(p, creds, opts, slot) =>
      AssignedBelongs(d, p, creds, opts, slot);
      SetSlotExactly(d, p, slot, LoginCred(creds));
    case Store(p, name, cred) => StoreKeeps(d, p, name, cred.(title := name));
    case SetDefault(p, a) =>
      if Promote(d, p, a).Some? {
        PromoteKeeps(d, p, a);
      }
    case Logout(key) =>
      LogoutExactly(d, key);
      if key in d && AccountOf(key) == "" && !IsMCPKey(key) {
        CanonicalDefault(key);
      }
  }

  /** Over any run of safe operations, every provider that holds accounts keeps a default. */
  lemma {:induction false} DefaultsKeptOverRuns(states: seq<Data>, ops: seq<Op>)
    requires |states| == |ops| + 1 && WellFormed(states[0]) && KeepsDefaults(states[0])
    requires forall i | 0 <= i < |ops| :: Step(states[i], ops[i], states[i + 1]) && Sensible(ops[i]) && Safe(states[i], ops[i])
    ensures forall i | 0 <= i < |states| :: WellFormed(states[i]) && KeepsDefaults(states[i])
  {
    if |ops| > 0 {
      var n := |ops| - 1;
      DefaultsKeptOverRuns(states[..n + 1], ops[..n]);
      assert states[..n + 1][n] == states[n];
      StepKeepsExactly(states[n], ops[n], states[n + 1]);
      forall i | 0 <= i < |states| ensures WellFormed(states[i]) && KeepsDefaults(states[i]) {
        if i <= n {
          assert states[..n + 1][i] == states[i];
        }
      }
    }
  }

  /** Both exceptions happen: a first login under a name leaves the provider without a default, and so does logging out a
      default with two other accounts left. */
  lemma NamedFirstLogin(p: string, creds: OAuthCreds)
    requires IsProviderID(p)
    ensures var op := Login(p, creds, LoginOptions(false, "work"), p + "#work");
            && Sensible(op) && Step(map[], op, map[p + "#work" := LoginCred(creds)])
            && KeepsDefaults(map[]) && !KeepsDefaults(map[p + "#work" := LoginCred(creds)])
  {
    var empty: Data := map[];
    var op := Login(p, creds, LoginOptions(false, "work"), p + "#work");
    assert Sanitize("work") == "work" && SlotKey(p, "work") == p + "#work";
    assert Accounts(empty, p) == {} && !HasDefault(empty, p);
    StepKeepsExactly(empty, op, map[p + "#work" := LoginCred(creds)]);
  }

  function ThreeAccounts(p: string, cred: Cred): Data { map[p := cred, SlotKey(p, "a") := cred, SlotKey(p, "b") := cred] }

  lemma ThreeSlots(p: string)
    requires IsProviderID(p)
    ensures |{p, SlotKey(p, "a"), SlotKey(p, "b")}| == 3
  {
    assert |SlotKey(p, "a")| > |p| && |SlotKey(p, "b")| > |p|;
    if SlotKey(p, "a") == SlotKey(p, "b") {
      SlotKeyInjective(p, "a", p, "b");
    }
  }

  lemma ThreeAccountsAre(p: string, cred: Cred)
    requires IsProviderID(p)
    ensures WellFormed(ThreeAccounts(p, cred)) && forall key | key in ThreeAccounts(p, cred) :: IsAccountOf(key, p)
    ensures Accounts(ThreeAccounts(p, cred), p) == {p, SlotKey(p, "a"), SlotKey(p, "b")}
  {
    forall name | name in {"", "a", "b"} ensures Canonical(SlotKey(p, name)) && IsAccountOf(SlotKey(p, name), p) {
      CanonicalSlot(p, name);
      AccountSlot(p, name);
    }
    assert SlotKey(p, "") == p;
  }

  lemma LogoutLeavesTwo(p: string, cred: Cred)
    requires IsProviderID(p)
    ensures var d := ThreeAccounts(p, cred);
            && WellFormed(d) && KeepsDefaults(d) && Sensible(Logout(p)) && Step(d, Logout(p), AfterLogout(d, p))
            && !KeepsDefaults(AfterLogout(d, p))
  {
    var d := ThreeAccounts(p, cred);
    ThreeSlots(p);
    ThreeAccountsAre(p, cred);
    forall q | IsProviderID(q) ensures Kept(d, q) {
      if key :| key in Accounts(d, q) {
        assert BaseOf(key) == p;
      }
    }
    LogoutDefaultExactly(d, p);
  }

  // ---- identities and slots ----

  lemma UpdateKeepsMatches(d: Data, p: string, slot: string, cred: Cred, id: string)
    requires slot in d && AccountID(cred) == AccountID(d[slot])
    ensures Accounts(d[slot := cred], p) == Accounts(d, p)
    ensures Matches(d[slot := cred], p, id) == Matches(d, p, id)
  {
    assert Accounts(d[slot := cred], p) == Accounts(d, p);
  }

  lemma SoleMatchIsAssigned(d: Data, p: string, creds: OAuthCreds, add: bool, slot: string, chosen: string)
    requires HasDefault(d, p) && Identity(creds) != "" && Matches(d, p, Identity(creds)) == {slot}
    requires Assigned(d, p, creds, LoginOptions(add, ""), chosen)
    ensures chosen == slot
  {
    assert Sanitize("") == "";
    assert slot in Matches(d, p, Identity(creds));
  }

  /** After any number of quiet refreshes of the one account that carries an identity, a default-policy login
      with that identity is assigned that account's slot again. */
  lemma RefreshedAccountIsFound(d: Data, p: string, slot: string, grants: seq<OAuthCreds>, creds: OAuthCreds,
                                add: bool, chosen: string)
    requires HasDefault(d, p) && Identity(creds) != "" && Matches(d, p, Identity(creds)) == {slot}
    requires forall i | 0 <= i < |grants| :: Quiet(grants[i], Identity(creds))
    requires slot in d && Assigned(d[slot := RefreshedAll(d[slot], grants)], p, creds, LoginOptions(add, ""), chosen)
    ensures chosen == slot
  {
    assert slot in Matches(d, p, Identity(creds));
    var cred := RefreshedAll(d[slot], grants);
    assert AccountID(cred) == AccountID(d[slot]) by {
      IdentityStable(d[slot], grants);
    }
    UpdateKeepsMatches(d, p, slot, cred, Identity(creds));
    SoleMatchIsAssigned(d[slot := cred], p, creds, add, slot, chosen);
  }

  /** Logging in again overwrites exactly the account that carries the identity. */
  lemma ReloginReplacesItself(d: Data, p: string, creds: OAuthCreds, add: bool, slot: string)
    requires IsProviderID(p) && HasDefault(d, p) && Identity(creds) != "" && Matches(d, p, Identity(creds)) != {}
    requires Assigned(d, p, creds, LoginOptions(add, ""), slot)
    ensures slot in d && AccountID(d[slot]) == Identity(creds) == AccountID(LoginCred(creds))
  {
    assert Sanitize("") == "";
    LiftKeepsIdentity(LoginCred(creds));
  }

  /** The doc comment of LoginAccount says a new identity cannot collide with an existing account. It does
      exactly when the slot its identity spells is taken: then, and only then, another account is evicted. */
  lemma NewIdentityEvictsExactly(d: Data, p: string, creds: OAuthCreds, add: bool, slot: string)
    requires IsProviderID(p) && HasDefault(d, p) && Identity(creds) != "" && Matches(d, p, Identity(creds)) == {}
    requires Assigned(d, p, creds, LoginOptions(add, ""), slot)
    ensures (forall key | key in d :: SameAt(d, d[slot := LoginCred(creds)], key)) <==>
            SlotKey(p, Identity(creds)) !in d
  {
    assert Sanitize("") == "";
    LiftKeepsIdentity(LoginCred(creds));
    assert AccountID(LoginCred(creds)) == Identity(creds);
    assert slot == SlotKey(p, Identity(creds));
    AccountSlot(p, Identity(creds));
    if slot in d {
      assert slot in Accounts(d, p) && slot !in Matches(d, p, Identity(creds));
      assert !SameAt(d, d[slot := LoginCred(creds)], slot);
    }
  }

  /** It happens: a nameless default demoted to `p#account2` is evicted by an account called "account2". */
  lemma DemotedAccountEvicted(p: string, older: Cred, newer: Cred, creds: OAuthCreds)
    requires IsProviderID(p) && OwnName(older) == "" && OwnName(newer) == "" && Identity(creds) == "account2"
    ensures Promote(map[p := older, NumberedSlot(p, 3) := newer], p, "account3").Some?
    ensures var d := Promote(map[p := older, NumberedSlot(p, 3) := newer], p, "account3").value.data;
            && d == map[p := newer, NumberedSlot(p, 2) := older]
            && Assigned(d, p, creds, LoginOptions(false, ""), NumberedSlot(p, 2))
  {
    assert Decimal(2) == "2" && Decimal(3) == "3";
    assert AccountName(2) == "account2" && AccountName(3) == "account3";
    var start := map[p := older, NumberedSlot(p, 3) := newer];
    assert NumberedSlot(p, 3)[|p|] == '#' && NumberedSlot(p, 2)[|p|] == '#';
    if NumberedSlot(p, 2) == NumberedSlot(p, 3) {
      NumberedSlotInjective(p, 2, 3);
    }
    assert FirstFree(p, start.Keys - {NumberedSlot(p, 3)}, 2) == 2;
    var pr := Promote(start, p, "account3").value;
    assert pr.demoted == NumberedSlot(p, 2);
    var d := pr.data;
    assert d == map[p := newer, NumberedSlot(p, 2) := older];
    AccountSlot(p, "");
    SplitSlotKey(p, "");
    assert p in Accounts(d, p);
    assert Matches(d, p, "account2") == {};
    assert Sanitize("") == "";
  }
}
