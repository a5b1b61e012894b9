/** Storage slots (pkg/auth/accounts.go): a provider's default account lives under the bare provider id,
    a named one under `provider#account`. */
module Slots {
  import opened Text

  function SlotKey(provider: string, accountID: string): string {
    if accountID == "" || accountID == "default" then provider else provider + "#" + accountID
  }

  /** The index of the first `#`, or the length. */
  function FirstHash(key: string): (i: nat)
    ensures i <= |key| && (i < |key| ==> key[i] == '#')
    ensures forall j | 0 <= j < i :: key[j] != '#'
  {
    if key == "" || key[0] == '#' then 0 else 1 + FirstHash(key[1..])
  }

  function SplitSlot(key: string): (string, string) {
    var i := FirstHash(key);
    if i < |key| then (key[..i], key[i + 1..]) else (key, "")
  }

  function BaseOf(key: string): string { SplitSlot(key).0 }

  function AccountOf(key: string): string { SplitSlot(key).1 }

  const MCP_PREFIX := "mcp:"

  predicate IsMCPKey(key: string) { MCP_PREFIX <= key }

  ghost predicate IsProvider(provider: string) { Free(provider, {'#'}) }

  /** Splitting undoes composing, except that "default" is spelled as the empty account. */
  lemma SplitSlotKey(provider: string, accountID: string)
    requires IsProvider(provider)
    ensures SplitSlot(SlotKey(provider, accountID)) == (provider, if accountID == "default" then "" else accountID)
  {
    var key := SlotKey(provider, accountID);
    if key == provider {
      assert FirstHash(provider) == |provider|;
    } else {
      assert key[|provider|] == '#';
      assert forall j | 0 <= j < |provider| :: key[j] == provider[j];
      assert FirstHash(key) == |provider|;
      assert key[..|provider|] == provider && key[|provider| + 1..] == accountID;
    }
  }

  lemma SplitParts(key: string)
    ensures IsProvider(BaseOf(key))
    ensures FirstHash(key) < |key| ==> key == BaseOf(key) + "#" + AccountOf(key) && |BaseOf(key)| < |key|
    ensures FirstHash(key) == |key| ==> key == BaseOf(key) && AccountOf(key) == ""
  {
    var i := FirstHash(key);
    if i < |key| {
      assert key == key[..i] + [key[i]] + key[i + 1..];
    }
  }

  /** Composing undoes splitting on every key but `p#` and `p#default`, which compose to the bare `p`. */
  lemma SlotKeySplit(key: string)
    ensures SlotKey(BaseOf(key), AccountOf(key)) == key <==>
            FirstHash(key) == |key| || (AccountOf(key) != "" && AccountOf(key) != "default")
  {
    SplitParts(key);
  }

  /** Keys that SlotKey can produce. */
  ghost predicate Canonical(key: string) {
    SlotKey(BaseOf(key), AccountOf(key)) == key
  }

  lemma CanonicalSlot(provider: string, accountID: string)
    requires IsProvider(provider)
    ensures Canonical(SlotKey(provider, accountID)) && BaseOf(SlotKey(provider, accountID)) == provider
  {
    SplitSlotKey(provider, accountID);
  }

  lemma SlotKeyInjective(p: string, a: string, q: string, b: string)
    requires IsProvider(p) && IsProvider(q) && a != "default" && b != "default"
    requires SlotKey(p, a) == SlotKey(q, b)
    ensures p == q && a == b
  {
    SplitSlotKey(p, a);
    SplitSlotKey(q, b);
  }

  // ---- the first free accountN ----

  function AccountName(i: nat): string { "account" + Decimal(i) }

  function NumberedSlot(provider: string, i: nat): string { SlotKey(provider, AccountName(i)) }

  lemma AccountNameInjective(i: nat, j: nat)
    requires AccountName(i) == AccountName(j)
    ensures i == j
  {
    assert AccountName(i)[7..] == Decimal(i) && AccountName(j)[7..] == Decimal(j);
    DecimalInjective(i, j);
  }

  lemma NumberedSlotInjective(provider: string, i: nat, j: nat)
    requires NumberedSlot(provider, i) == NumberedSlot(provider, j)
    ensures i == j
  {
    var a, b := AccountName(i), AccountName(j);
    assert a[0] == 'a' && b[0] == 'a';
    assert NumberedSlot(provider, i)[|provider| + 1..] == a;
    assert NumberedSlot(provider, j)[|provider| + 1..] == b;
    AccountNameInjective(i, j);
  }

  /** The taken slots that a counter standing at `i` can still run into: the loops' measure. */
  ghost function Ahead(provider: string, taken: set<string>, i: nat): set<string> {
    set key | key in taken && exists k: nat :: k >= i && key == NumberedSlot(provider, k)
  }

  lemma AheadShrinks(provider: string, taken: set<string>, i: nat)
    requires NumberedSlot(provider, i) in taken
    ensures Ahead(provider, taken, i + 1) < Ahead(provider, taken, i)
  {
    var key := NumberedSlot(provider, i);
    assert key in Ahead(provider, taken, i);
    if key in Ahead(provider, taken, i + 1) {
      var k: nat :| k >= i + 1 && key == NumberedSlot(provider, k);
      NumberedSlotInjective(provider, i, k);
    }
  }

  /** The least counter from `i` on whose slot is not taken. */
  function FirstFree(provider: string, taken: set<string>, i: nat): (n: nat)
    ensures n >= i && NumberedSlot(provider, n) !in taken
    ensures forall k: nat | i <= k < n :: NumberedSlot(provider, k) in taken
    decreases Ahead(provider, taken, i)
  {
    if NumberedSlot(provider, i) in taken then
      AheadShrinks(provider, taken, i);
      FirstFree(provider, taken, i + 1)
    else i
  }

  /** The unbounded counting loop shared by demotion, forced add and unnamed store: it stops, at the
      least free `accountN` with N at least 2, and the slot reads back as that account of the provider. */
  method NextNumberedSlot(provider: string, taken: set<string>) returns (slot: string)
    ensures slot == NumberedSlot(provider, FirstFree(provider, taken, 2))
    ensures slot !in taken
    ensures IsProvider(provider) ==> SplitSlot(slot) == (provider, AccountName(FirstFree(provider, taken, 2)))
  {
    var i: nat := 2;
    slot := NumberedSlot(provider, i);
    while slot in taken
      invariant i >= 2 && slot == NumberedSlot(provider, i)
      invariant FirstFree(provider, taken, i) == FirstFree(provider, taken, 2)
      decreases Ahead(provider, taken, i)
    {
      AheadShrinks(provider, taken, i);
      i := i + 1;
      slot := NumberedSlot(provider, i);
    }
    if IsProvider(provider) {
      assert AccountName(i)[0] == 'a';
      SplitSlotKey(provider, AccountName(i));
    }
  }
}
