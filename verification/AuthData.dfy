/** The credential map (pkg/auth/authstorage.go, pkg/auth/accounts.go): the accounts of a provider, the slot
    policies of login, store, promotion and logout, and what they keep. */
module AuthData {
  import opened Text
  import opened Slots
  import opened Credentials
  import opened Wrappers

  type Data = map<string, Cred>

  /** Whether a locked refresh spends a grant: on an OAuth credential, forced or inside the refresh window. */
  predicate Due(current: Data, slot: string, now: int, window: int, force: bool) {
    slot in current && current[slot].kind == OAuth && (force || NeedsRefresh(current[slot], now, window))
  }

  // ---- ordered batches of slot changes ----

  type Changes = map<string, Option<Cred>>

  function ApplyOne(m: Data, key: string, change: Option<Cred>): Data {
    match change
    case Some(cred) => m[key := cred]
    case None => m - {key}
  }

  function ApplyBatch(m: Data, order: seq<string>, changes: Changes): Data
    requires forall i | 0 <= i < |order| :: order[i] in changes
  {
    if |order| == 0 then m
    else
      var last := order[|order| - 1];
      ApplyOne(ApplyBatch(m, order[..|order| - 1], changes), last, changes[last])
  }

  ghost predicate SameAt(m: Data, n: Data, key: string) {
    (key in m <==> key in n) && (key in m && key in n ==> m[key] == n[key])
  }

  ghost predicate Holds(m: Data, key: string, change: Option<Cred>) {
    match change
    case Some(cred) => key in m && m[key] == cred
    case None => key !in m
  }

  /** A batch leaves each slot it names as its change says and every other slot alone, whatever the map. */
  lemma {:induction false} BatchPointwise(m: Data, order: seq<string>, changes: Changes)
    requires forall i | 0 <= i < |order| :: order[i] in changes
    ensures var r := ApplyBatch(m, order, changes);
            && (forall key | key in order :: Holds(r, key, changes[key]))
            && (forall key | key !in order :: SameAt(m, r, key))
  {
    if |order| > 0 {
      var front, last := order[..|order| - 1], order[|order| - 1];
      BatchPointwise(m, front, changes);
      assert order == front + [last];
      forall key | key !in order ensures SameAt(m, ApplyBatch(m, order, changes), key) {
        assert key !in front && key != last;
      }
    }
  }

  lemma SameEverywhere(m: Data, n: Data)
    requires forall key :: SameAt(m, n, key)
    ensures m == n
  {
    forall key ensures (key in m <==> key in n) && (key in m && key in n ==> m[key] == n[key]) {
      assert SameAt(m, n, key);
    }
  }

  // ---- accounts ----

  predicate IsAccountOf(key: string, provider: string) {
    !IsMCPKey(key) && BaseOf(key) == provider
  }

  function Accounts(data: Data, provider: string): set<string> {
    set key | key in data && IsAccountOf(key, provider)
  }

  predicate HasDefault(data: Data, provider: string) {
    exists key | key in Accounts(data, provider) :: AccountOf(key) == ""
  }

  /** The order AccountsForProvider sorts by: default first, then by account id. */
  predicate Before(a: string, b: string) {
    if (AccountOf(a) == "") != (AccountOf(b) == "") then AccountOf(a) == "" else Less(AccountOf(a), AccountOf(b))
  }

  /** Every stored slot key is one that SlotKey produces (no `p#`, no `p#default`). */
  ghost predicate WellFormed(data: Data) {
    forall key | key in data && !IsMCPKey(key) :: Canonical(key)
  }

  lemma CanonicalDefault(key: string)
    requires Canonical(key) && AccountOf(key) == ""
    ensures key == BaseOf(key)
  {
  }

  lemma MCPSlot(provider: string, accountID: string)
    requires IsProvider(provider)
    ensures IsMCPKey(SlotKey(provider, accountID)) <==> IsMCPKey(provider)
  {
    var key := SlotKey(provider, accountID);
    if key != provider {
      assert forall i | 0 <= i < |provider| :: key[i] == provider[i];
      assert key[|provider|] == '#';
      if |provider| < 4 {
        assert MCP_PREFIX[|provider|] != '#';
      }
    }
  }

  lemma AccountSlot(provider: string, accountID: string)
    requires IsProvider(provider) && !IsMCPKey(provider)
    ensures IsAccountOf(SlotKey(provider, accountID), provider)
  {
    SplitSlotKey(provider, accountID);
    MCPSlot(provider, accountID);
  }

  lemma HasDefaultIsBare(data: Data, provider: string)
    requires WellFormed(data) && IsProvider(provider) && !IsMCPKey(provider)
    ensures HasDefault(data, provider) <==> provider in data
  {
    SplitSlotKey(provider, "");
    if HasDefault(data, provider) {
      var key :| key in Accounts(data, provider) && AccountOf(key) == "";
      CanonicalDefault(key);
    }
    if provider in data {
      assert provider in Accounts(data, provider);
    }
  }

  // ---- promotion: SetDefaultAccount and freeSlotLocked ----

  /** The slot name a demoted credential asks for: its identity, else its label. */
  function OwnName(cred: Cred): (id: string)
    ensures Free(id, {'#'})
  {
    if AccountID(cred) != "" then AccountID(cred) else Sanitize(cred.title)
  }

  function FreeSlot(data: Data, provider: string, cred: Cred, vacated: string): string {
    var taken := data.Keys - {vacated};
    var id := OwnName(cred);
    if id != "" && id != "default" && SlotKey(provider, id) !in taken then SlotKey(provider, id)
    else NumberedSlot(provider, FirstFree(provider, taken, 2))
  }

  lemma FreeSlotIsFree(data: Data, provider: string, cred: Cred, vacated: string)
    requires IsProvider(provider)
    ensures var slot := FreeSlot(data, provider, cred, vacated);
            && (slot == vacated || slot !in data)
            && slot != provider && Canonical(slot) && BaseOf(slot) == provider && AccountOf(slot) != ""
  {
    var taken := data.Keys - {vacated};
    var slot := FreeSlot(data, provider, cred, vacated);
    var id := if slot == NumberedSlot(provider, FirstFree(provider, taken, 2)) then AccountName(FirstFree(provider, taken, 2)) else OwnName(cred);
    assert AccountName(FirstFree(provider, taken, 2))[0] == 'a';
    assert |AccountName(FirstFree(provider, taken, 2))| >= 8;
    assert slot == SlotKey(provider, id) && id != "" && id != "default";
    CanonicalSlot(provider, id);
    SplitSlotKey(provider, id);
    assert |slot| > |provider|;
  }

  /** A demoted credential goes by its own name - its identity, else its label - if it has one and that slot is free or just
      vacated. */
  lemma DemotedKeepsItsName(data: Data, provider: string, cred: Cred, vacated: string, name: string)
    requires name == if AccountID(cred) != "" then AccountID(cred) else Sanitize(cred.title)
    requires name != "" && name != "default" && (provider + "#" + name !in data || provider + "#" + name == vacated)
    ensures FreeSlot(data, provider, cred, vacated) == provider + "#" + name
  {
  }

  datatype Promotion = Promotion(data: Data, demoted: string, order: seq<string>, changes: Changes)

  /** The in-memory moves of SetDefaultAccount and the ordered batch it writes; None is its error return. */
  function Promote(data: Data, provider: string, accountID: string): Option<Promotion> {
    var from := SlotKey(provider, accountID);
    if provider == "" || accountID == "" || accountID == "default" || from !in data then None
    else if provider in data then
      var demoted := FreeSlot(data, provider, data[provider], from);
      Some(Promotion((data - {from})[demoted := data[provider]][provider := data[from]], demoted,
                     [from, demoted, provider],
                     map[from := None][demoted := Some(data[provider])][provider := Some(data[from])]))
    else
      Some(Promotion((data - {from})[provider := data[from]], "",
                     [from, provider], map[from := None][provider := Some(data[from])]))
  }

  /** The two ways a promotion goes, with and without a default to demote. */
  lemma PromoteSwaps(data: Data, provider: string, accountID: string, from: string, demoted: string)
    requires provider != "" && accountID != "" && accountID != "default" && from == SlotKey(provider, accountID)
    requires from in data && provider in data && demoted == FreeSlot(data, provider, data[provider], from)
    ensures Promote(data, provider, accountID) ==
            Some(Promotion((data - {from})[demoted := data[provider]][provider := data[from]], demoted,
                           [from, demoted, provider],
                           map[from := None][demoted := Some(data[provider])][provider := Some(data[from])]))
  {
  }

  lemma PromoteMoves(data: Data, provider: string, accountID: string, from: string)
    requires provider != "" && accountID != "" && accountID != "default" && from == SlotKey(provider, accountID)
    requires from in data && provider !in data
    ensures Promote(data, provider, accountID) ==
            Some(Promotion((data - {from})[provider := data[from]], "",
                           [from, provider], map[from := None][provider := Some(data[from])]))
  {
  }

  /** The batch, applied to the cached map, gives the in-memory moves, also when the demoted credential goes back into
      the vacated slot. */
  lemma BatchIsPromotion(data: Data, provider: string, accountID: string)
    requires Promote(data, provider, accountID).Some?
    ensures var p := Promote(data, provider, accountID).value;
            (forall i | 0 <= i < |p.order| :: p.order[i] in p.changes) && ApplyBatch(data, p.order, p.changes) == p.data
  {
    var p := Promote(data, provider, accountID).value;
    BatchPointwise(data, p.order, p.changes);
    var r := ApplyBatch(data, p.order, p.changes);
    forall key ensures SameAt(r, p.data, key) {
      if key in p.order {
        assert Holds(r, key, p.changes[key]);
      } else {
        assert SameAt(data, r, key);
        assert key != p.order[0];
      }
    }
    SameEverywhere(r, p.data);
  }

  /** Applied to any other map it gives the same in the slots it names, and nothing else changes there. */
  lemma BatchOnAnyMap(data: Data, provider: string, accountID: string, file: Data, key: string)
    requires Promote(data, provider, accountID).Some?
    ensures var p := Promote(data, provider, accountID).value;
            && (forall i | 0 <= i < |p.order| :: p.order[i] in p.changes)
            && SameAt(ApplyBatch(file, p.order, p.changes), if key in p.order then p.data else file, key)
  {
    var p := Promote(data, provider, accountID).value;
    BatchIsPromotion(data, provider, accountID);
    BatchPointwise(file, p.order, p.changes);
    BatchPointwise(data, p.order, p.changes);
    if key in p.order {
      assert Holds(ApplyBatch(file, p.order, p.changes), key, p.changes[key]);
      assert Holds(p.data, key, p.changes[key]);
    }
  }

  /** The credentials under a set of slots, with multiplicity. */
  ghost function Wallet(data: Data, keys: set<string>): multiset<Cred>
    requires keys <= data.Keys
  {
    if keys == {} then multiset{}
    else
      var k :| k in keys;
      Wallet(data, keys - {k}) + multiset{data[k]}
  }

  lemma {:induction false} WalletTake(data: Data, keys: set<string>, k: string)
    requires keys <= data.Keys && k in keys
    ensures Wallet(data, keys) == Wallet(data, keys - {k}) + multiset{data[k]}
  {
    var j :| j in keys && Wallet(data, keys) == Wallet(data, keys - {j}) + multiset{data[j]};
    if j != k {
      WalletTake(data, keys - {j}, k);
      WalletTake(data, keys - {k}, j);
      assert keys - {j} - {k} == keys - {k} - {j};
    }
  }

  lemma {:induction false} WalletFrame(d: Data, e: Data, keys: set<string>)
    requires keys <= d.Keys && keys <= e.Keys && forall k | k in keys :: d[k] == e[k]
    ensures Wallet(d, keys) == Wallet(e, keys)
  {
    if keys != {} {
      var k :| k in keys;
      WalletFrame(d, e, keys - {k});
      WalletTake(d, keys, k);
      WalletTake(e, keys, k);
    }
  }

  lemma WalletTakeTwo(d: Data, common: set<string>, a: string, b: string)
    requires common + {a, b} <= d.Keys && a != b && a !in common && b !in common
    ensures Wallet(d, common + {a, b}) == Wallet(d, common) + multiset{d[a], d[b]}
  {
    WalletTake(d, common + {a, b}, a);
    assert common + {a, b} - {a} == common + {b};
    WalletTake(d, common + {b}, b);
    assert common + {b} - {b} == common;
  }

  lemma WalletMove(d: Data, e: Data, common: set<string>, a: string, b: string, x: string, y: string)
    requires common + {a, b} <= d.Keys && common + {x, y} <= e.Keys
    requires forall k | k in common :: d[k] == e[k]
    requires a != b && x != y && a !in common && b !in common && x !in common && y !in common
    requires d[a] == e[x] && d[b] == e[y]
    ensures Wallet(d, common + {a, b}) == Wallet(e, common + {x, y})
  {
    WalletFrame(d, e, common);
    WalletTakeTwo(d, common, a, b);
    WalletTakeTwo(e, common, x, y);
  }

  /** SetDefaultAccount permutes the provider's credentials. */
  lemma PromotionMoves(data: Data, provider: string, accountID: string)
    requires IsProvider(provider) && Promote(data, provider, accountID).Some?
    ensures var p := Promote(data, provider, accountID).value;
            var from := SlotKey(provider, accountID);
            && provider in p.data && p.data[provider] == data[from]
            && (provider in data ==>
                  && p.demoted in p.data && p.data[p.demoted] == data[provider] && p.demoted != provider
                  && (p.demoted == from || p.demoted !in data)
                  && Canonical(p.demoted) && BaseOf(p.demoted) == provider)
            && (provider !in data ==> p.demoted == "" && from !in p.data)
            && (from in p.data <==> provider in data && p.demoted == from)
            && forall key | key != from && key != provider && key != p.demoted :: SameAt(data, p.data, key)
  {
    var from := SlotKey(provider, accountID);
    assert from[|provider|] == '#';
    if provider in data {
      FreeSlotIsFree(data, provider, data[provider], from);
      PromoteSwaps(data, provider, accountID, from, FreeSlot(data, provider, data[provider], from));
    } else {
      PromoteMoves(data, provider, accountID, from);
    }
  }

  lemma OnlyTheseMoved(d: Data, e: Data, provider: string, from: string, demoted: string)
    requires forall key | key != from && key != provider && key != demoted :: SameAt(d, e, key)
    requires demoted !in d || demoted == from || demoted == provider
    ensures Accounts(d, provider) - {from, provider} == Accounts(e, provider) - {from, provider, demoted}
    ensures forall key | key in Accounts(d, provider) - {from, provider} :: key in e && e[key] == d[key]
  {
    forall key ensures key in Accounts(d, provider) - {from, provider} <==> key in Accounts(e, provider) - {from, provider, demoted} {
      assert key != from && key != provider && key != demoted ==> SameAt(d, e, key);
    }
    forall key | key in Accounts(d, provider) - {from, provider} ensures key in e && e[key] == d[key] {
      assert SameAt(d, e, key);
    }
  }

  lemma AccountsSwapped(d: Data, e: Data, provider: string, from: string, demoted: string)
    requires forall key | key != from && key != provider && key != demoted :: SameAt(d, e, key)
    requires demoted !in d || demoted == from
    requires {from, provider} <= d.Keys && {provider, demoted} <= e.Keys && (from in e <==> demoted == from)
    requires forall key | key in {from, provider, demoted} :: IsAccountOf(key, provider)
    ensures var rest := Accounts(d, provider) - {from, provider};
            && demoted !in rest
            && Accounts(d, provider) == rest + {from, provider} && Accounts(e, provider) == rest + {provider, demoted}
  {
    OnlyTheseMoved(d, e, provider, from, demoted);
  }

  lemma AccountsMoved(d: Data, e: Data, provider: string, from: string)
    requires forall key | key != from && key != provider :: SameAt(d, e, key)
    requires from in d && provider !in d && provider in e && from !in e
    requires forall key | key in {from, provider} :: IsAccountOf(key, provider)
    ensures var rest := Accounts(d, provider) - {from, provider};
            Accounts(d, provider) == rest + {from} && Accounts(e, provider) == rest + {provider}
  {
    OnlyTheseMoved(d, e, provider, from, from);
  }

  lemma AccountsAfterPromotion(data: Data, provider: string, accountID: string)
    requires IsProvider(provider) && !IsMCPKey(provider) && Promote(data, provider, accountID).Some?
    ensures var p := Promote(data, provider, accountID).value;
            var from := SlotKey(provider, accountID);
            var rest := Accounts(data, provider) - {from, provider};
            && p.demoted !in rest
            && Accounts(data, provider) == rest + (if provider in data then {from, provider} else {from})
            && Accounts(p.data, provider) == rest + (if provider in data then {provider, p.demoted} else {provider})
            && forall key | key in rest :: p.data[key] == data[key]
  {
    var p := Promote(data, provider, accountID).value;
    var from := SlotKey(provider, accountID);
    PromotionMoves(data, provider, accountID);
    AccountSlot(provider, accountID);
    AccountSlot(provider, "");
    if provider in data {
      AccountSlot(provider, AccountOf(p.demoted));
      AccountsSwapped(data, p.data, provider, from, p.demoted);
    } else {
      AccountsMoved(data, p.data, provider, from);
    }
    forall key | key in Accounts(data, provider) - {from, provider} ensures p.data[key] == data[key] {
      assert SameAt(data, p.data, key);
    }
  }

  /** It only permutes: the provider's accounts hold the same credentials as before, with multiplicity. */
  lemma PromotionKeepsWallet(data: Data, provider: string, accountID: string)
    requires IsProvider(provider) && Promote(data, provider, accountID).Some?
    ensures var after := Promote(data, provider, accountID).value.data;
            Wallet(after, Accounts(after, provider)) == Wallet(data, Accounts(data, provider))
  {
    var p := Promote(data, provider, accountID).value;
    var from := SlotKey(provider, accountID);
    if IsMCPKey(provider) {
      MCPHasNoAccounts(data, provider);
      MCPHasNoAccounts(p.data, provider);
    } else {
      var rest := Accounts(data, provider) - {from, provider};
      AccountsAfterPromotion(data, provider, accountID);
      PromotionMoves(data, provider, accountID);
      if provider in data {
        WalletMove(data, p.data, rest, from, provider, provider, p.demoted);
      } else {
        WalletFrame(data, p.data, rest);
        WalletTake(data, rest + {from}, from);
        WalletTake(p.data, rest + {provider}, provider);
        assert rest + {from} - {from} == rest && rest + {provider} - {provider} == rest;
      }
    }
  }

  lemma MCPHasNoAccounts(data: Data, provider: string)
    requires IsMCPKey(provider)
    ensures Accounts(data, provider) == {}
  {
    forall key | key in data && !IsMCPKey(key) ensures BaseOf(key) != provider {
      SplitParts(key);
      assert BaseOf(key) <= key;
    }
  }

  /** Other providers' accounts are untouched. */
  lemma PromotionLeavesOthers(data: Data, provider: string, accountID: string, other: string)
    requires IsProvider(provider) && other != provider && Promote(data, provider, accountID).Some?
    ensures var after := Promote(data, provider, accountID).value.data;
            && Accounts(after, other) == Accounts(data, other)
            && forall key | key in Accounts(data, other) :: after[key] == data[key]
  {
    var p, from := Promote(data, provider, accountID).value, SlotKey(provider, accountID);
    PromotionMoves(data, provider, accountID);
    SplitSlotKey(provider, accountID);
    SplitSlotKey(provider, "");
    forall key | IsAccountOf(key, other) ensures SameAt(data, p.data, key) {
      assert key != from && key != provider;
      assert key == p.demoted ==> provider !in data && key == "";
      if key == p.demoted {
        PromoteMoves(data, provider, accountID, from);
      }
    }
    SameAccounts(data, p.data, other);
  }

  lemma SameAccounts(d: Data, e: Data, provider: string)
    requires forall key | IsAccountOf(key, provider) :: SameAt(d, e, key)
    ensures Accounts(d, provider) == Accounts(e, provider)
    ensures forall key | key in Accounts(d, provider) :: e[key] == d[key]
  {
    forall key ensures key in Accounts(d, provider) <==> key in Accounts(e, provider) {
      assert IsAccountOf(key, provider) ==> SameAt(d, e, key);
    }
    forall key | key in Accounts(d, provider) ensures e[key] == d[key] {
      assert SameAt(d, e, key);
    }
  }
}
