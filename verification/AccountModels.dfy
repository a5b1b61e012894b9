/** Models of a named account (accountProvider.ModifyModels in pkg/auth/accounts.go): the account's models are shown to
    the base provider under the base id, and what it answers is merged back by model id. */
module AccountModels {
  import opened Wrappers

  /** `settings` stands for everything else a model carries: headers, base URL, limits. */
  datatype Model = Model(provider: string, id: string, settings: seq<string>)

  /** Any base provider, whatever it does: `None` is "no change", and an entry may be missing. */
  type Base = seq<Model> -> Option<seq<Option<Model>>>

  datatype Account = Account(slotKey: string, baseID: string, base: Base)

  predicate Named(a: Account) { a.slotKey != a.baseID }

  /** What the base provider gets to see of a named account. */
  function Shown(models: seq<Model>, a: Account): seq<Model> {
    if |models| == 0 then []
    else
      var last := models[|models| - 1];
      Shown(models[..|models| - 1], a) + if last.provider == a.slotKey then [last.(provider := a.baseID)] else []
  }

  /** The last entry of an answer that has this id. */
  function LastWithId(answer: seq<Option<Model>>, id: string): (r: Option<Model>)
    ensures r.Some? ==> r.value.id == id && r in answer
    ensures r.None? ==> forall j | 0 <= j < |answer| && answer[j].Some? :: answer[j].value.id != id
  {
    if |answer| == 0 then None
    else
      var last := answer[|answer| - 1];
      assert answer == answer[..|answer| - 1] + [last];
      if last.Some? && last.value.id == id then last else LastWithId(answer[..|answer| - 1], id)
  }

  /** One model after the answer is merged back. */
  function MergedModel(m: Model, a: Account, answer: seq<Option<Model>>): Model {
    if m.provider == a.slotKey && LastWithId(answer, m.id).Some? then
      LastWithId(answer, m.id).value.(provider := a.slotKey)
    else m
  }

  function Merged(models: seq<Model>, a: Account, answer: seq<Option<Model>>): seq<Model> {
    seq(|models|, i requires 0 <= i < |models| => MergedModel(models[i], a, answer))
  }

  /** What a named account makes of a model list; `None` is "no change". */
  function Modified(models: seq<Model>, a: Account): Option<seq<Model>> {
    var shown := Shown(models, a);
    if shown == [] || a.base(shown).None? then None else Some(Merged(models, a, a.base(shown).value))
  }

  function Present(models: seq<Model>): seq<Option<Model>> {
    seq(|models|, i requires 0 <= i < |models| => Some(models[i]))
  }

  // ---- the method ----

  lemma ShownSnoc(models: seq<Model>, i: nat, a: Account)
    requires i < |models|
    ensures Shown(models[..i + 1], a) ==
            Shown(models[..i], a) + (if models[i].provider == a.slotKey then [models[i].(provider := a.baseID)] else [])
  {
    assert models[..i + 1][..i] == models[..i];
  }

  predicate IndexesOwn(models: seq<Model>, n: nat, idx: seq<nat>, a: Account)
    requires n <= |models|
  {
    && (forall k | 0 <= k < |idx| :: idx[k] < n && models[idx[k]].provider == a.slotKey)
    && (forall k, l | 0 <= k < l < |idx| :: idx[k] < idx[l])
    && (forall i | 0 <= i < n && models[i].provider == a.slotKey :: i in idx)
  }

  predicate IsTable(byID: map<string, Model>, answer: seq<Option<Model>>) {
    && (forall id | id in byID :: LastWithId(answer, id) == Some(byID[id]))
    && (forall j | 0 <= j < |answer| && answer[j].Some? :: answer[j].value.id in byID)
  }

  lemma LastWithIdSnoc(answer: seq<Option<Model>>, j: nat, id: string)
    requires j < |answer|
    ensures LastWithId(answer[..j + 1], id) ==
            (if answer[j].Some? && answer[j].value.id == id then answer[j] else LastWithId(answer[..j], id))
  {
    assert answer[..j + 1][..j] == answer[..j];
  }

  method Table(answer: seq<Option<Model>>) returns (byID: map<string, Model>)
    ensures IsTable(byID, answer)
  {
    byID := map[];
    for j := 0 to |answer|
      invariant IsTable(byID, answer[..j])
    {
      forall id ensures LastWithId(answer[..j + 1], id) ==
                        (if answer[j].Some? && answer[j].value.id == id then answer[j] else LastWithId(answer[..j], id)) {
        LastWithIdSnoc(answer, j, id);
      }
      if answer[j].Some? {
        byID := byID[answer[j].value.id := answer[j].value];
      }
    }
    assert answer[..|answer|] == answer;
  }

  /** The first loop: the account's own models, relabelled, and where they are. */
  method Subset(models: seq<Model>, a: Account) returns (subset: seq<Model>, idx: seq<nat>)
    ensures subset == Shown(models, a) && IndexesOwn(models, |models|, idx, a)
  {
    subset, idx := [], [];
    for i := 0 to |models|
      invariant subset == Shown(models[..i], a) && IndexesOwn(models, i, idx, a)
    {
      ShownSnoc(models, i, a);
      if models[i].provider == a.slotKey {
        subset, idx := subset + [models[i].(provider := a.baseID)], idx + [i];
      }
    }
    assert models[..|models|] == models;
  }

  method ModifyModels(models: seq<Model>, a: Account) returns (result: Option<seq<Option<Model>>>)
    ensures !Named(a) ==> result == a.base(models)
    ensures Named(a) ==>
              match Modified(models, a)
              case None => result == None
              case Some(ms) => result == Some(Present(ms))
  {
    if a.slotKey == a.baseID {
      return a.base(models);
    }
    var subset, idx := Subset(models, a);
    if |subset| == 0 {
      return None;
    }
    var modified := a.base(subset);
    if modified.None? {
      return None;
    }
    var byID := Table(modified.value);
    var merged := MergeBack(models, idx, a, modified.value, byID);
    result := Some(merged);
  }

  /** The second loop: each own model whose id was answered takes the answer, under the slot key again. */
  method MergeBack(models: seq<Model>, idx: seq<nat>, a: Account, answer: seq<Option<Model>>, byID: map<string, Model>)
      returns (result: seq<Option<Model>>)
    requires IndexesOwn(models, |models|, idx, a) && IsTable(byID, answer)
    ensures result == Present(Merged(models, a, answer))
  {
    result := Present(models);
    for k := 0 to |idx|
      invariant |result| == |models|
      invariant forall l | 0 <= l < k :: result[idx[l]] == Some(MergedModel(models[idx[l]], a, answer))
      invariant forall i | 0 <= i < |models| && i !in idx[..k] :: result[i] == Some(models[i])
    {
      var mi := idx[k];
      assert idx[..k + 1] == idx[..k] + [mi];
      if models[mi].id in byID {
        result := result[mi := Some(byID[models[mi].id].(provider := a.slotKey))];
      } else {
        assert LastWithId(answer, models[mi].id).None?;
        assert mi !in idx[..k];
      }
    }
    assert idx[..|idx|] == idx;
    forall i | 0 <= i < |models| ensures result[i] == Some(MergedModel(models[i], a, answer)) {
      if models[i].provider == a.slotKey {
        var l :| 0 <= l < |idx| && idx[l] == i;
      }
    }
  }

  // ---- what a named account can and cannot do ----

  /** Whatever the base provider answers - reordered, shortened, repeated or invented entries - a named account reports no
      change or keeps every index at its provider and id, and leaves the models of others alone. */
  lemma AccountsDoNotInterfere(models: seq<Model>, a: Account, i: nat)
    requires Named(a) && i < |models| && Modified(models, a).Some?
    ensures var ms := Modified(models, a).value;
            && |ms| == |models|
            && ms[i].provider == models[i].provider && ms[i].id == models[i].id
            && (models[i].provider != a.slotKey ==> ms[i] == models[i])
  {
    var answer := a.base(Shown(models, a)).value;
    assert Modified(models, a).value[i] == MergedModel(models[i], a, answer);
  }

  /** Entry j is the last one of the answer with this id. */
  ghost predicate IsLast(answer: seq<Option<Model>>, j: int, id: string) {
    && 0 <= j < |answer| && answer[j].Some? && answer[j].value.id == id
    && forall l | j < l < |answer| && answer[l].Some? :: answer[l].value.id != id
  }

  lemma {:induction false} LastIsLast(answer: seq<Option<Model>>, j: nat, id: string)
    requires IsLast(answer, j, id)
    ensures LastWithId(answer, id) == answer[j]
  {
    var front := answer[..|answer| - 1];
    if j < |front| {
      assert IsLast(front, j, id) by {
        assert forall l | 0 <= l < |front| :: front[l] == answer[l];
      }
      LastIsLast(front, j, id);
    }
  }

  /** An own model takes the settings of the last answer with its id; without one it stays as it is. */
  lemma OwnModelAfter(models: seq<Model>, a: Account, i: nat, j: nat)
    requires Named(a) && i < |models| && models[i].provider == a.slotKey && Modified(models, a).Some?
    ensures var ms, answer := Modified(models, a).value, a.base(Shown(models, a)).value;
            && |ms| == |models|
            && (IsLast(answer, j, models[i].id) ==> ms[i] == answer[j].value.(provider := a.slotKey))
            && ((forall k | 0 <= k < |answer| && answer[k].Some? :: answer[k].value.id != models[i].id) ==> ms[i] == models[i])
  {
    var answer := a.base(Shown(models, a)).value;
    if IsLast(answer, j, models[i].id) {
      LastIsLast(answer, j, models[i].id);
    }
    assert Modified(models, a).value[i] == MergedModel(models[i], a, answer);
    if LastWithId(answer, models[i].id).Some? {
      var k :| 0 <= k < |answer| && answer[k] == LastWithId(answer, models[i].id);
    }
  }

  /** The base provider is shown the account's own models and no other: it cannot tell two lists apart that agree on them. */
  lemma {:induction false} ShownIsOwn(models: seq<Model>, a: Account, m: Model)
    ensures m in Shown(models, a) <==>
            exists i :: 0 <= i < |models| && models[i].provider == a.slotKey && m == models[i].(provider := a.baseID)
  {
    if |models| > 0 {
      var front, last := models[..|models| - 1], models[|models| - 1];
      ShownIsOwn(front, a, m);
      if i :| 0 <= i < |front| && front[i].provider == a.slotKey && m == front[i].(provider := a.baseID) {
        assert models[i] == front[i];
      }
      if i :| 0 <= i < |models| && models[i].provider == a.slotKey && m == models[i].(provider := a.baseID) {
        if i < |front| {
          assert front[i] == models[i];
        }
      }
      assert models[|front|] == last;
    }
  }

  /** And in their order: what it is shown are the own models at increasing positions, each once. */
  lemma {:induction false} ShownKeepsOrder(models: seq<Model>, a: Account) returns (at: seq<nat>)
    ensures |at| == |Shown(models, a)| && forall k, l | 0 <= k < l < |at| :: at[k] < at[l]
    ensures forall k | 0 <= k < |at| ::
              at[k] < |models| && models[at[k]].provider == a.slotKey && Shown(models, a)[k] == models[at[k]].(provider := a.baseID)
    ensures forall i: nat | i < |models| && models[i].provider == a.slotKey :: i in at
  {
    at := [];
    if |models| > 0 {
      var n := |models| - 1;
      at := ShownKeepsOrder(models[..n], a);
      if models[n].provider == a.slotKey {
        at := at + [n];
      }
    }
  }

  /** There is a change exactly when the account has a model and the base provider reports one. */
  lemma ModifiedExactly(models: seq<Model>, a: Account)
    ensures Modified(models, a).Some? <==>
            (exists i :: 0 <= i < |models| && models[i].provider == a.slotKey) && a.base(Shown(models, a)).Some?
  {
    var at := ShownKeepsOrder(models, a);
    if Shown(models, a) != [] {
      assert models[at[0]].provider == a.slotKey;
    }
  }

  // ---- several accounts ----

  /** buildModels applies one provider after another, keeping the list when there is no change. */
  function Applied(models: seq<Model>, a: Account): seq<Model> {
    match Modified(models, a)
    case None => models
    case Some(ms) => ms
  }

  lemma {:induction false} ShownUnder(models: seq<Model>, others: seq<Model>, a: Account)
    requires |models| == |others|
    requires forall i | 0 <= i < |models| :: models[i].provider == others[i].provider
    requires forall i | 0 <= i < |models| && models[i].provider == a.slotKey :: models[i] == others[i]
    ensures Shown(models, a) == Shown(others, a)
  {
    if |models| > 0 {
      ShownUnder(models[..|models| - 1], others[..|models| - 1], a);
    }
  }

  lemma AppliedAt(models: seq<Model>, a: Account)
    requires Named(a)
    ensures |Applied(models, a)| == |models|
    ensures forall i | 0 <= i < |models| :: Applied(models, a)[i].provider == models[i].provider
    ensures forall i | 0 <= i < |models| && models[i].provider != a.slotKey :: Applied(models, a)[i] == models[i]
  {
  }

  /** An own model after `Applied`, in terms of what the account was shown. */
  lemma OwnAfter(models: seq<Model>, a: Account, shown: seq<Model>, i: nat)
    requires Named(a) && i < |models| && models[i].provider == a.slotKey && shown == Shown(models, a)
    ensures Applied(models, a)[i] ==
            if a.base(shown).None? then models[i] else MergedModel(models[i], a, a.base(shown).value)
  {
    assert models[i].(provider := a.baseID) in shown by {
      ShownIsOwn(models, a, models[i].(provider := a.baseID));
    }
  }

  lemma OwnIsIndependent(models: seq<Model>, a: Account, b: Account, i: nat)
    requires Named(a) && Named(b) && a.slotKey != b.slotKey && i < |models| && models[i].provider == a.slotKey
    ensures |Applied(Applied(models, b), a)| == |models| && |Applied(Applied(models, a), b)| == |models|
    ensures Applied(Applied(models, b), a)[i] == Applied(models, a)[i] == Applied(Applied(models, a), b)[i]
  {
    AppliedAt(models, a);
    AppliedAt(models, b);
    AppliedAt(Applied(models, a), b);
    AppliedAt(Applied(models, b), a);
    ShownUnder(models, Applied(models, b), a);
    OwnAfter(models, a, Shown(models, a), i);
    OwnAfter(Applied(models, b), a, Shown(models, a), i);
  }

  /** Two named accounts, of one base provider or of two, give the same list in either order. */
  lemma AccountsCommute(models: seq<Model>, a: Account, b: Account)
    requires Named(a) && Named(b) && a.slotKey != b.slotKey
    ensures Applied(Applied(models, a), b) == Applied(Applied(models, b), a)
  {
    AppliedAt(models, a);
    AppliedAt(models, b);
    AppliedAt(Applied(models, a), b);
    AppliedAt(Applied(models, b), a);
    forall i | 0 <= i < |models| ensures Applied(Applied(models, a), b)[i] == Applied(Applied(models, b), a)[i] {
      if models[i].provider == a.slotKey {
        OwnIsIndependent(models, a, b, i);
      } else if models[i].provider == b.slotKey {
        OwnIsIndependent(models, b, a, i);
      }
    }
  }
}
