/** Stored credentials (pkg/auth/authstorage.go, pkg/auth/refresh.go): conversions, the account identity
    derived from a credential, the refresh window, and what a refresh carries forward. */
module Credentials {
  import opened Text

  datatype CredType = ApiKey | OAuth | AwsIam | Unknown(name: string)

  /** A JSON value: only its being a string matters here. */
  datatype Value = Str(s: string) | NotText(n: int)

  type Extra = map<string, Value>

  datatype Cred = Cred(kind: CredType, title: string, key: string, access: string, refresh: string,
                       expires: int, projectID: string, extra: Extra)

  datatype OAuthCreds = OAuthCreds(access: string, refresh: string, expires: int, extra: Extra)

  function ToOAuth(cred: Cred): OAuthCreds {
    OAuthCreds(cred.access, cred.refresh, cred.expires,
               if cred.projectID != "" && "projectId" !in cred.extra
               then cred.extra["projectId" := Str(cred.projectID)] else cred.extra)
  }

  function FromOAuth(creds: OAuthCreds): Cred {
    Cred(OAuth, "", "", creds.access, creds.refresh, creds.expires,
         if "projectId" in creds.extra && creds.extra["projectId"].Str? then creds.extra["projectId"].s else "",
         creds.extra)
  }

  const IDENTITY_KEYS: seq<string> := ["accountId", "account_id", "email", "label"]
  const LABEL_KEYS: seq<string> := ["label", "email", "accountId", "account_id"]

  predicate HasText(extra: Extra, k: string) {
    k in extra && extra[k].Str? && extra[k].s != ""
  }

  /** The first non-empty string among the given keys, or "". */
  function FirstText(extra: Extra, keys: seq<string>): string {
    if |keys| == 0 then ""
    else if HasText(extra, keys[0]) then extra[keys[0]].s
    else FirstText(extra, keys[1..])
  }

  function Sanitize(v: string): (r: string)
    ensures |r| == |v| && Free(r, {'#'})
    ensures forall i | 0 <= i < |v| :: r[i] == if v[i] == '#' then '_' else v[i]
  {
    seq(|v|, i requires 0 <= i < |v| => if v[i] == '#' then '_' else v[i])
  }

  function Identity(creds: OAuthCreds): string { Sanitize(FirstText(creds.extra, IDENTITY_KEYS)) }

  function AccountID(cred: Cred): string { Identity(ToOAuth(cred)) }

  function LabelFrom(creds: OAuthCreds): string { FirstText(creds.extra, LABEL_KEYS) }

  /** Times are in milliseconds; no expiry (0) never needs a refresh, a negative window counts as 0. */
  predicate NeedsRefresh(cred: Cred, now: int, window: int) {
    cred.expires != 0 && now + (if window < 0 then 0 else window) >= cred.expires
  }

  /** Due means expired, or expiring within the window; a negative window is none, and no expiry never. */
  lemma NeedsRefreshExactly(cred: Cred, now: int, window: int)
    ensures NeedsRefresh(cred, now, window) <==>
            cred.expires != 0 && (cred.expires <= now || (window > 0 && cred.expires - now <= window))
  {
  }

  /** The identity is taken from the account id, else the email, else the label. */
  lemma IdentityFrom(creds: OAuthCreds)
    ensures var extra := creds.extra;
            Identity(creds) ==
            Sanitize(if HasText(extra, "accountId") then extra["accountId"].s
                     else if HasText(extra, "account_id") then extra["account_id"].s
                     else if HasText(extra, "email") then extra["email"].s
                     else if HasText(extra, "label") then extra["label"].s else "")
  {
    FirstOfFour(creds.extra, "accountId", "account_id", "email", "label");
  }

  /** The label is taken from the label, else the email, else the account id. */
  lemma LabelIsFrom(creds: OAuthCreds)
    ensures var extra := creds.extra;
            LabelFrom(creds) ==
            if HasText(extra, "label") then extra["label"].s
            else if HasText(extra, "email") then extra["email"].s
            else if HasText(extra, "accountId") then extra["accountId"].s
            else if HasText(extra, "account_id") then extra["account_id"].s else ""
  {
    FirstOfFour(creds.extra, "label", "email", "accountId", "account_id");
  }

  lemma FirstOfFour(extra: Extra, a: string, b: string, c: string, d: string)
    ensures FirstText(extra, [a, b, c, d]) ==
            if HasText(extra, a) then extra[a].s
            else if HasText(extra, b) then extra[b].s
            else if HasText(extra, c) then extra[c].s
            else if HasText(extra, d) then extra[d].s else ""
  {
    assert [a, b, c, d][1..] == [b, c, d] && [b, c, d][1..] == [c, d] && [c, d][1..] == [d] && [d][1..] == [];
    assert FirstText(extra, [d]) == if HasText(extra, d) then extra[d].s else "";
    assert FirstText(extra, [c, d]) == if HasText(extra, c) then extra[c].s else FirstText(extra, [d]);
    assert FirstText(extra, [b, c, d]) == if HasText(extra, b) then extra[b].s else FirstText(extra, [c, d]);
  }

  function Mirror(cred: Cred): Cred {
    if HasText(cred.extra, "projectId") then cred.(projectID := cred.extra["projectId"].s) else cred
  }

  /** `updated` with what it lacks of the previous credential's identity. */
  function Carry(updated: Cred, previous: Cred): Cred {
    var u := if previous.title != "" then updated.(title := previous.title) else updated;
    var prior := ToOAuth(previous).extra;
    Mirror(if AccountID(u) == "" then u.(extra := prior + u.extra) else u)
  }

  /** The loop of carryAccountMetadata, over a map and so in no fixed order. */
  method MergeMissing(extra: Extra, prior: Extra) returns (merged: Extra)
    ensures merged == prior + extra
  {
    merged := extra;
    var todo := prior.Keys;
    while todo != {}
      invariant todo <= prior.Keys
      invariant merged.Keys == extra.Keys + (prior.Keys - todo)
      invariant forall k | k in merged :: merged[k] == if k in extra then extra[k] else prior[k]
    {
      var k :| k in todo;
      todo := todo - {k};
      if k !in merged {
        merged := merged[k := prior[k]];
      }
    }
  }

  method CarryAccountMetadata(updated: Cred, previous: Cred) returns (r: Cred)
    ensures r == Carry(updated, previous)
  {
    r := updated;
    if previous.title != "" {
      r := r.(title := previous.title);
    }
    var prevExtra := ToOAuth(previous).extra;
    if AccountID(r) == "" {
      if |prevExtra| > 0 {
        var merged := MergeMissing(r.extra, prevExtra);
        r := r.(extra := merged);
      } else {
        assert prevExtra + r.extra == r.extra;
      }
    }
    if "projectId" in r.extra && r.extra["projectId"].Str? && r.extra["projectId"].s != "" {
      r := r.(projectID := r.extra["projectId"].s);
    }
  }

  // ---- identity across refreshes ----

  function Refreshed(cred: Cred, granted: OAuthCreds): Cred { Carry(FromOAuth(granted), cred) }

  /** What a refreshed credential is made of: the grant's tokens and expiry; all the grant says of the account; and, if the
      grant names no account, whatever else was known before, the legacy project column among it. */
  lemma RefreshedExactly(cred: Cred, granted: OAuthCreds)
    ensures var r := Refreshed(cred, granted);
            && r.kind == OAuth && r.access == granted.access && r.refresh == granted.refresh && r.expires == granted.expires
            && r.key == "" && (cred.title != "" ==> r.title == cred.title)
            && (forall k | k in granted.extra :: k in r.extra && r.extra[k] == granted.extra[k])
            && (forall k | k !in granted.extra && Identity(granted) != "" :: k !in r.extra)
            && (forall k | k !in granted.extra && Identity(granted) == "" :: k in r.extra <==> KnownBefore(cred, k))
            && (forall k | k in r.extra && k !in granted.extra && k in cred.extra :: r.extra[k] == cred.extra[k])
            && (forall k | k in r.extra && k !in granted.extra && k !in cred.extra ::
                  k == "projectId" && r.extra[k] == Str(cred.projectID))
            && (HasText(r.extra, "projectId") ==> r.projectID == r.extra["projectId"].s)
  {
    LiftKeepsIdentity(FromOAuth(granted));
    LiftKeepsIdentity(FromOAuth(granted).(title := cred.title));
  }

  ghost predicate KnownBefore(cred: Cred, k: string) { k in cred.extra || (k == "projectId" && cred.projectID != "") }

  lemma {:induction false} FirstTextAgrees(a: Extra, b: Extra, keys: seq<string>)
    requires forall i | 0 <= i < |keys| :: HasText(a, keys[i]) == HasText(b, keys[i])
    requires forall i | 0 <= i < |keys| && HasText(a, keys[i]) && HasText(b, keys[i]) :: a[keys[i]] == b[keys[i]]
    ensures FirstText(a, keys) == FirstText(b, keys)
  {
    if |keys| > 0 && !HasText(a, keys[0]) {
      assert forall i | 0 <= i < |keys[1..]| :: keys[1..][i] == keys[i + 1];
      FirstTextAgrees(a, b, keys[1..]);
    }
  }

  lemma LiftKeepsIdentity(cred: Cred)
    ensures AccountID(cred) == Sanitize(FirstText(cred.extra, IDENTITY_KEYS))
  {
    FirstTextAgrees(ToOAuth(cred).extra, cred.extra, IDENTITY_KEYS);
  }

  lemma {:induction false} FirstTextEmpty(extra: Extra, keys: seq<string>)
    ensures FirstText(extra, keys) == "" <==> forall i | 0 <= i < |keys| :: !HasText(extra, keys[i])
  {
    if |keys| > 0 {
      FirstTextEmpty(extra, keys[1..]);
      if !HasText(extra, keys[0]) {
        assert forall i | 0 <= i < |keys[1..]| :: keys[1..][i] == keys[i + 1];
        if forall i | 0 <= i < |keys[1..]| :: !HasText(extra, keys[1..][i]) {
          forall i | 0 <= i < |keys| ensures !HasText(extra, keys[i]) {
            assert i > 0 ==> keys[i] == keys[1..][i - 1];
          }
        }
      }
    }
  }

  /** Exactly which identity and label a refresh leaves: the label of the previous credential, and the
      identity the grant reports, or else the first usable one of the previous credential under a key
      the grant does not bring at all. A key the grant brings blank hides the previous value. */
  lemma RefreshIdentity(cred: Cred, granted: OAuthCreds)
    ensures Refreshed(cred, granted).title == cred.title
    ensures AccountID(Refreshed(cred, granted)) ==
            if Identity(granted) != "" then Identity(granted)
            else Sanitize(FirstText(ToOAuth(cred).extra - granted.extra.Keys, IDENTITY_KEYS))
  {
    var u := FromOAuth(granted).(title := cred.title);
    var prior := ToOAuth(cred).extra;
    LiftKeepsIdentity(u);
    LiftKeepsIdentity(Refreshed(cred, granted));
    if Identity(granted) == "" {
      FirstTextEmpty(granted.extra, IDENTITY_KEYS);
      FirstTextAgrees(prior + granted.extra, prior - granted.extra.Keys, IDENTITY_KEYS);
    }
  }

  /** The grant says nothing of the account, or names the same one. */
  ghost predicate Quiet(granted: OAuthCreds, id: string) {
    Identity(granted) == id || forall i | 0 <= i < |IDENTITY_KEYS| :: IDENTITY_KEYS[i] !in granted.extra
  }

  function RefreshedAll(cred: Cred, grants: seq<OAuthCreds>): Cred {
    if |grants| == 0 then cred else Refreshed(RefreshedAll(cred, grants[..|grants| - 1]), grants[|grants| - 1])
  }

  /** Identity and label survive any number of quiet refreshes; the label survives any refreshes. */
  lemma {:induction false} IdentityStable(cred: Cred, grants: seq<OAuthCreds>)
    ensures RefreshedAll(cred, grants).title == cred.title
    ensures (forall i | 0 <= i < |grants| :: Quiet(grants[i], AccountID(cred))) ==>
              AccountID(RefreshedAll(cred, grants)) == AccountID(cred)
  {
    if |grants| > 0 {
      var front, last := grants[..|grants| - 1], grants[|grants| - 1];
      IdentityStable(cred, front);
      var c := RefreshedAll(cred, front);
      RefreshIdentity(c, last);
      if forall i | 0 <= i < |grants| :: Quiet(grants[i], AccountID(cred)) {
        assert Quiet(last, AccountID(cred));
        if Identity(last) != AccountID(cred) || Identity(last) == "" {
          QuietKeeps(c, last);
        }
      }
    }
  }

  lemma QuietKeeps(cred: Cred, granted: OAuthCreds)
    requires Quiet(granted, AccountID(cred))
    ensures AccountID(Refreshed(cred, granted)) == AccountID(cred)
  {
    RefreshIdentity(cred, granted);
    var prior := ToOAuth(cred).extra;
    if forall i | 0 <= i < |IDENTITY_KEYS| :: IDENTITY_KEYS[i] !in granted.extra {
      FirstTextEmpty(granted.extra, IDENTITY_KEYS);
      FirstTextAgrees(prior - granted.extra.Keys, prior, IDENTITY_KEYS);
    } else {
      FirstTextEmpty(prior, IDENTITY_KEYS);
      FirstTextEmpty(prior - granted.extra.Keys, IDENTITY_KEYS);
    }
  }

  /** Quietness is needed: a grant that brings a blank account id moves the account to its email. */
  lemma BlankIdentityMovesAccount()
    ensures exists cred, granted ::
              Identity(granted) == "" && AccountID(cred) == "acct" && AccountID(Refreshed(cred, granted)) == "me@x"
  {
    var cred := Cred(OAuth, "", "", "a", "r", 0, "", map["accountId" := Str("acct"), "email" := Str("me@x")]);
    var granted := OAuthCreds("b", "s", 0, map["accountId" := Str("")]);
    RefreshIdentity(cred, granted);
    assert FirstText(cred.extra, IDENTITY_KEYS) == "acct";
    LiftKeepsIdentity(cred);
    FirstTextEmpty(granted.extra, IDENTITY_KEYS);
    var left := ToOAuth(cred).extra - granted.extra.Keys;
    assert IDENTITY_KEYS[1..][1..][0] == "email";
    assert !HasText(left, "accountId") && !HasText(left, "account_id") && HasText(left, "email");
    assert IDENTITY_KEYS[1..][0] == "account_id";
    assert FirstText(left, IDENTITY_KEYS[1..][1..]) == "me@x";
    assert FirstText(left, IDENTITY_KEYS) == "me@x";
    assert Sanitize("acct") == "acct" && Sanitize("me@x") == "me@x";
  }
}
