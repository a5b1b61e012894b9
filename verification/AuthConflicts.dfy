/** Auth-provider conflicts (pkg/extension/manager.go, pkg/extension/bridge_auth.go): when several running extensions
    register one auth provider id, one of them keeps it. */
module AuthConflicts {
  import opened Text

  /** A running extension: the ids it declares come with a flow (generic provider) or without (its own). */
  datatype AuthSpec = AuthSpec(id: string, generic: bool)
  datatype Ext = Ext(name: string, scope: string, auth: seq<AuthSpec>)

  function ScopePriority(scope: string): int {
    if scope == "builtin" then 0
    else if scope == "package" then 1
    else if scope == "global" then 2
    else if scope == "project" then 3
    else -1
  }

  /** The global registry (id to the bridge whose provider is active) and each bridge's own two lists. */
  datatype Reg = Reg(registry: map<string, nat>, own: seq<seq<string>>, generic: seq<seq<string>>)

  function FilterOut(ids: seq<string>, id: string): (r: seq<string>)
    ensures forall x :: x in r <==> x in ids && x != id
  {
    if |ids| == 0 then []
    else
      var last := ids[|ids| - 1];
      var rest := FilterOut(ids[..|ids| - 1], id);
      assert ids == ids[..|ids| - 1] + [last];
      if last == id then rest else rest + [last]
  }

  predicate Sized(reg: Reg, n: nat) { |reg.own| == n && |reg.generic| == n }

  predicate Holds(reg: Reg, b: nat, id: string)
    requires Sized(reg, |reg.own|) && b < |reg.own|
  {
    id in reg.own[b] || id in reg.generic[b]
  }

  function Unregistered(reg: Reg, b: nat, id: string): Reg
    requires Sized(reg, |reg.own|) && b < |reg.own|
  {
    Reg(reg.registry - {id}, reg.own[b := FilterOut(reg.own[b], id)], reg.generic[b := FilterOut(reg.generic[b], id)])
  }

  function Reregistered(reg: Reg, b: nat, id: string): Reg
    requires Sized(reg, |reg.own|) && b < |reg.own|
  {
    if Holds(reg, b, id) then reg.(registry := reg.registry[id := b]) else reg
  }

  /** RegisterAuthProviders for one declared provider: into the list of its kind, and active. */
  function RegisteredOne(reg: Reg, b: nat, spec: AuthSpec): Reg
    requires Sized(reg, |reg.own|) && b < |reg.own|
  {
    if spec.generic then Reg(reg.registry[spec.id := b], reg.own, reg.generic[b := reg.generic[b] + [spec.id]])
    else Reg(reg.registry[spec.id := b], reg.own[b := reg.own[b] + [spec.id]], reg.generic)
  }

  function Registered(reg: Reg, b: nat, specs: seq<AuthSpec>): (r: Reg)
    requires Sized(reg, |reg.own|) && b < |reg.own|
    ensures Sized(r, |reg.own|)
  {
    if |specs| == 0 then reg else RegisteredOne(Registered(reg, b, specs[..|specs| - 1]), b, specs[|specs| - 1])
  }

  /** UnregisterAuthProviders: the declared ids leave the registry, whoever is active under them. */
  function UnregisteredAll(reg: Reg, b: nat, specs: seq<AuthSpec>): (r: Reg)
    requires Sized(reg, |reg.own|) && b < |reg.own|
    ensures Sized(r, |reg.own|)
  {
    Reg(reg.registry - (set i | 0 <= i < |specs| :: specs[i].id), reg.own[b := []], reg.generic[b := []])
  }

  /** What a reload finds under a name: nothing, or an extension; its ids are those it registers when it comes up, none if
      it does not. */
  datatype Found = Gone | Discovered(ext: Ext)

  /** Builtins are never reloadable. */
  predicate Refused(found: Found) { found.Discovered? && found.ext.scope == "builtin" }

  /** What runs under the name afterwards; an extension that does not run declares nothing. */
  function Next(prior: Ext, found: Found): Ext {
    match found
    case Gone => prior.(auth := [])
    case Discovered(ext) => ext
  }

  /** A reload of bridge b that is not refused: its ids are unregistered, whoever serves them, and what comes up registers
      its own. */
  function ReloadedAt(reg: Reg, b: nat, prior: Ext, next: Ext): (r: Reg)
    requires Sized(reg, |reg.own|) && b < |reg.own|
    ensures Sized(r, |reg.own|)
  {
    Registered(UnregisteredAll(reg, b, prior.auth), b, next.auth)
  }

  // ---- the scan ----

  /** One declared id of one bridge, in scanning order. */
  datatype Item = Item(b: nat, id: string)

  function ItemsOf(exts: seq<Ext>, b: nat, p: nat): seq<Item>
    requires b < |exts| && p <= |exts[b].auth|
  {
    seq(p, i requires 0 <= i < p => Item(b, exts[b].auth[i].id))
  }

  function Items(exts: seq<Ext>, n: nat): seq<Item>
    requires n <= |exts|
  {
    if n == 0 then [] else Items(exts, n - 1) + ItemsOf(exts, n - 1, |exts[n - 1].auth|)
  }

  /** The items of the first b bridges and of the first p ids of bridge b. */
  function ItemsUpTo(exts: seq<Ext>, b: nat, p: nat): seq<Item>
    requires b < |exts| && p <= |exts[b].auth|
  {
    Items(exts, b) + ItemsOf(exts, b, p)
  }

  lemma ItemsUpToEnds(exts: seq<Ext>, b: nat)
    requires b < |exts|
    ensures ItemsUpTo(exts, b, 0) == Items(exts, b)
    ensures ItemsUpTo(exts, b, |exts[b].auth|) == Items(exts, b + 1)
  {
    assert Items(exts, b) + [] == Items(exts, b);
  }

  lemma ItemsUpToSnoc(exts: seq<Ext>, b: nat, p: nat)
    requires b < |exts| && p < |exts[b].auth|
    ensures ItemsUpTo(exts, b, p + 1) == ItemsUpTo(exts, b, p) + [Item(b, exts[b].auth[p].id)]
  {
  }

  /** Every item names one of the bridges. */
  predicate Within(items: seq<Item>, n: nat) {
    forall i | 0 <= i < |items| :: items[i].b < n
  }

  lemma {:induction false} ItemsWithin(exts: seq<Ext>, n: nat)
    requires n <= |exts|
    ensures Within(Items(exts, n), |exts|)
  {
    if n > 0 {
      ItemsWithin(exts, n - 1);
    }
  }

  datatype Scan = Scan(best: map<string, nat>, reg: Reg)

  /** `a` takes an id from `b`: by scope, then by name. */
  predicate Beats(exts: seq<Ext>, a: nat, b: nat)
    requires a < |exts| && b < |exts|
  {
    var pa, pb := ScopePriority(exts[a].scope), ScopePriority(exts[b].scope);
    pa > pb || (pa == pb && Less(exts[a].name, exts[b].name))
  }

  function Settle(exts: seq<Ext>, scan: Scan, item: Item): Scan
    requires Fit(exts, scan) && item.b < |exts|
  {
    if item.id !in scan.best then scan.(best := scan.best[item.id := item.b])
    else
      var w := scan.best[item.id];
      var winner, loser := if Beats(exts, item.b, w) then item.b else w, if Beats(exts, item.b, w) then w else item.b;
      Scan(scan.best[item.id := winner],
           Reregistered(Unregistered(scan.reg, loser, item.id), winner, item.id))
  }

  predicate Fit(exts: seq<Ext>, scan: Scan) {
    Sized(scan.reg, |exts|) && forall id | id in scan.best :: scan.best[id] < |exts|
  }

  function SettleAll(exts: seq<Ext>, reg: Reg, items: seq<Item>): (scan: Scan)
    requires Sized(reg, |exts|) && Within(items, |exts|)
    ensures Fit(exts, scan)
  {
    if |items| == 0 then Scan(map[], reg)
    else Settle(exts, SettleAll(exts, reg, items[..|items| - 1]), items[|items| - 1])
  }

  lemma SettleAllSnoc(exts: seq<Ext>, reg: Reg, items: seq<Item>, item: Item)
    requires Sized(reg, |exts|) && Within(items, |exts|) && item.b < |exts|
    ensures SettleAll(exts, reg, items + [item]) == Settle(exts, SettleAll(exts, reg, items), item)
  {
    assert (items + [item])[..|items|] == items;
  }

  class AuthHost {
    var registry: map<string, nat>
    var own: seq<seq<string>>
    var generic: seq<seq<string>>

    ghost function State(): Reg
      reads this
    {
      Reg(registry, own, generic)
    }

    constructor (reg: Reg)
      ensures State() == reg
    {
      registry, own, generic := reg.registry, reg.own, reg.generic;
    }

    method Filter(ids: seq<string>, id: string) returns (kept: seq<string>)
      ensures kept == FilterOut(ids, id)
    {
      kept := [];
      for i := 0 to |ids|
        invariant kept == FilterOut(ids[..i], id)
      {
        assert ids[..i + 1][..i] == ids[..i];
        if ids[i] == id {
          continue;
        }
        kept := kept + [ids[i]];
      }
      assert ids[..|ids|] == ids;
    }

    method UnregisterAuthProvider(b: nat, id: string)
      requires Sized(State(), |own|) && b < |own|
      modifies this
      ensures State() == Unregistered(old(State()), b, id)
    {
      registry := registry - {id};
      var kept := Filter(own[b], id);
      own := own[b := kept];
      kept := Filter(generic[b], id);
      generic := generic[b := kept];
    }

    method ReregisterAuthProvider(b: nat, id: string)
      requires Sized(State(), |own|) && b < |own|
      modifies this`registry
      ensures State() == Reregistered(old(State()), b, id)
    {
      for i := 0 to |own[b]|
        invariant id !in own[b][..i]
      {
        if own[b][i] == id {
          registry := registry[id := b];
          return;
        }
      }
      assert own[b][..|own[b]|] == own[b];
      for i := 0 to |generic[b]|
        invariant id !in generic[b][..i]
      {
        if generic[b][i] == id {
          registry := registry[id := b];
          return;
        }
      }
      assert generic[b][..|generic[b]|] == generic[b];
    }

    method RegisterAuthProviders(b: nat, specs: seq<AuthSpec>)
      requires Sized(State(), |own|) && b < |own|
      modifies this
      ensures State() == Registered(old(State()), b, specs)
    {
      for i := 0 to |specs|
        invariant Sized(State(), |old(own)|) && State() == Registered(old(State()), b, specs[..i])
      {
        assert specs[..i + 1][..i] == specs[..i];
        if specs[i].generic {
          generic := generic[b := generic[b] + [specs[i].id]];
        } else {
          own := own[b := own[b] + [specs[i].id]];
        }
        registry := registry[specs[i].id := b];
      }
      assert specs[..|specs|] == specs;
    }

    method UnregisterAuthProviders(b: nat, specs: seq<AuthSpec>)
      requires Sized(State(), |own|) && b < |own|
      modifies this
      ensures State() == UnregisteredAll(old(State()), b, specs)
    {
      for i := 0 to |specs|
        invariant own == old(own) && generic == old(generic)
        invariant registry == old(registry) - (set k | 0 <= k < i :: specs[k].id)
      {
        registry := registry - {specs[i].id};
      }
      own, generic := own[b := []], generic[b := []];
    }

    /** ReloadOne, as far as it concerns auth providers: a builtin is refused before anything is touched. `found` is what
        discovery finds under the name of bridge b, with what comes up of it; `prior` what bridge b declared. */
    method ReloadOne(b: nat, prior: Ext, found: Found) returns (refused: bool)
      requires Sized(State(), |own|) && b < |own|
      modifies this
      ensures refused <==> Refused(found)
      ensures State() == if refused then old(State()) else ReloadedAt(old(State()), b, prior, Next(prior, found))
    {
      if found.Discovered? && found.ext.scope == "builtin" {
        return true;
      }
      UnregisterAuthProviders(b, prior.auth);
      if found.Discovered? {
        RegisterAuthProviders(b, found.ext.auth);
      }
      refused := false;
    }

    method SettleOne(exts: seq<Ext>, b: nat, id: string, best: map<string, nat>) returns (next: map<string, nat>)
      requires b < |exts| && Fit(exts, Scan(best, State()))
      modifies this
      ensures Scan(next, State()) == Settle(exts, Scan(best, old(State())), Item(b, id))
    {
      next := best;
      if id !in best {
        return next[id := b];
      }
      var w := best[id];
      var pri, bestPri := ScopePriority(exts[b].scope), ScopePriority(exts[w].scope);
      var loser := b;
      if pri > bestPri {
        loser := w;
        next := next[id := b];
      } else if pri == bestPri {
        if Less(exts[b].name, exts[w].name) {
          loser := w;
          next := next[id := b];
        }
      }
      UnregisterAuthProvider(loser, id);
      ReregisterAuthProvider(next[id], id);
    }

    /** resolveAuthConflicts: every declared id of every bridge, against the best seen so far. */
    method ResolveAuthConflicts(exts: seq<Ext>)
      requires Sized(State(), |exts|)
      modifies this
      ensures Within(Items(exts, |exts|), |exts|)
      ensures State() == SettleAll(exts, old(State()), Items(exts, |exts|)).reg
    {
      var best: map<string, nat> := map[];
      ghost var start := State();
      for b := 0 to |exts|
        invariant Within(Items(exts, b), |exts|)
        invariant Scan(best, State()) == SettleAll(exts, start, Items(exts, b))
      {
        ItemsUpToEnds(exts, b);
        for p := 0 to |exts[b].auth|
          invariant Within(ItemsUpTo(exts, b, p), |exts|)
          invariant Scan(best, State()) == SettleAll(exts, start, ItemsUpTo(exts, b, p))
        {
          ItemsUpToSnoc(exts, b, p);
          SettleAllSnoc(exts, start, ItemsUpTo(exts, b, p), Item(b, exts[b].auth[p].id));
          best := SettleOne(exts, b, exts[b].auth[p].id, best);
        }
      }
    }
  }

  // ---- the outcome ----

  ghost predicate NamesDistinct(exts: seq<Ext>) {
    forall i, j | 0 <= i < j < |exts| :: exts[i].name != exts[j].name
  }

  /** The scopes from the highest down, in names; any other scope is below them all. */
  predicate HigherScope(a: string, b: string) {
    || (a == "project" && b != "project")
    || (a == "global" && b !in {"project", "global"})
    || (a == "package" && b !in {"project", "global", "package"})
    || (a == "builtin" && b !in {"project", "global", "package", "builtin"})
  }

  lemma ScopesRanked(a: string, b: string)
    ensures ScopePriority(a) > ScopePriority(b) <==> HigherScope(a, b)
    ensures ScopePriority(a) == ScopePriority(b) <==> !HigherScope(a, b) && !HigherScope(b, a)
  {
  }

  lemma BeatsOrder(exts: seq<Ext>, a: nat, b: nat, c: nat)
    requires NamesDistinct(exts) && a < |exts| && b < |exts| && c < |exts|
    ensures !Beats(exts, a, a)
    ensures a == b || Beats(exts, a, b) || Beats(exts, b, a)
    ensures Beats(exts, a, b) ==> !Beats(exts, b, a)
    ensures Beats(exts, a, b) && Beats(exts, b, c) ==> Beats(exts, a, c)
    ensures Beats(exts, a, b) <==>
              || HigherScope(exts[a].scope, exts[b].scope)
              || (!HigherScope(exts[b].scope, exts[a].scope) && Less(exts[a].name, exts[b].name))
  {
    LessTotal(exts[a].name, exts[b].name);
    if Less(exts[a].name, exts[a].name) {
      LessAsymmetric(exts[a].name, exts[a].name);
    }
    if Less(exts[a].name, exts[b].name) {
      LessAsymmetric(exts[a].name, exts[b].name);
      if Less(exts[b].name, exts[c].name) {
        LessTransitive(exts[a].name, exts[b].name, exts[c].name);
      }
    }
  }

  /** How often a bridge declares an id among the items, and how often it is declared in all. */
  function Times(items: seq<Item>, b: nat, id: string): nat {
    if |items| == 0 then 0
    else Times(items[..|items| - 1], b, id) + if items[|items| - 1] == Item(b, id) then 1 else 0
  }

  function Declared(items: seq<Item>, id: string): nat {
    if |items| == 0 then 0
    else Declared(items[..|items| - 1], id) + if items[|items| - 1].id == id then 1 else 0
  }

  /** The best so far is the best of those that declare the id. */
  ghost predicate BestOk(exts: seq<Ext>, items: seq<Item>, best: map<string, nat>) {
    && (forall id :: id in best <==> Declared(items, id) > 0)
    && (forall id | id in best :: best[id] < |exts| && Times(items, best[id], id) > 0)
    && (forall id, k: nat | id in best && k < |exts| && k != best[id] && Times(items, k, id) > 0 :: Beats(exts, best[id], k))
  }

  ghost predicate Keeps(items: seq<Item>, best: map<string, nat>, k: nat, id: string) {
    Times(items, k, id) == 0 || (id in best && best[id] == k && Times(items, k, id) == 1)
  }

  /** Who still holds an id: a bridge not scanned for it yet, or the best one if it declares it once. */
  ghost predicate HeldOk(exts: seq<Ext>, items: seq<Item>, scan: Scan, start: Reg) {
    Sized(scan.reg, |exts|) && Sized(start, |exts|) &&
    forall k: nat, id | k < |exts| ::
      Holds(scan.reg, k, id) <==> Holds(start, k, id) && Keeps(items, scan.best, k, id)
  }

  /** Who is active: nothing changes for an id declared once so far; otherwise the best one, if it still holds it. */
  ghost predicate ActiveOk(exts: seq<Ext>, items: seq<Item>, scan: Scan, start: Reg) {
    forall id ::
      if Declared(items, id) <= 1 then
        (id in scan.reg.registry <==> id in start.registry) && (id in start.registry ==> scan.reg.registry[id] == start.registry[id])
      else if id in scan.best && Times(items, scan.best[id], id) == 1 && scan.best[id] < |exts| && Sized(start, |exts|) && Holds(start, scan.best[id], id) then
        id in scan.reg.registry && scan.reg.registry[id] == scan.best[id]
      else id !in scan.reg.registry
  }

  lemma {:induction false} TimesDeclared(items: seq<Item>, b: nat, id: string)
    ensures Times(items, b, id) <= Declared(items, id)
  {
    if |items| > 0 {
      TimesDeclared(items[..|items| - 1], b, id);
    }
  }

  lemma SettleKeepsBest(exts: seq<Ext>, items: seq<Item>, scan: Scan, item: Item)
    requires NamesDistinct(exts) && Fit(exts, scan) && item.b < |exts| && BestOk(exts, items, scan.best)
    ensures BestOk(exts, items + [item], Settle(exts, scan, item).best)
  {
    var all := items + [item];
    var best := Settle(exts, scan, item).best;
    assert all[..|items|] == items;
    forall id, k: nat | id in best && k < |exts| && k != best[id] && Times(all, k, id) > 0 ensures Beats(exts, best[id], k) {
      if id == item.id {
        if id in scan.best {
          BeatsOrder(exts, item.b, scan.best[id], k);
          BeatsOrder(exts, scan.best[id], item.b, k);
        } else {
          TimesDeclared(items, k, id);
        }
      } else {
        assert Times(items, k, id) > 0;
      }
    }
  }

  lemma TimesSnoc(items: seq<Item>, item: Item, k: nat, id: string)
    ensures Times(items + [item], k, id) == Times(items, k, id) + if item == Item(k, id) then 1 else 0
  {
    assert (items + [item])[..|items|] == items;
  }

  lemma SettleHolds(exts: seq<Ext>, items: seq<Item>, scan: Scan, item: Item, start: Reg, k: nat, id: string)
    requires NamesDistinct(exts) && Fit(exts, scan) && item.b < |exts| && BestOk(exts, items, scan.best)
    requires Sized(start, |exts|) && k < |exts|
    requires Holds(scan.reg, k, id) <==> Holds(start, k, id) && Keeps(items, scan.best, k, id)
    ensures var next := Settle(exts, scan, item);
            Holds(next.reg, k, id) <==> Holds(start, k, id) && Keeps(items + [item], next.best, k, id)
  {
    TimesSnoc(items, item, k, id);
    if id == item.id {
      if id in scan.best {
        BeatsOrder(exts, item.b, scan.best[id], k);
      } else {
        TimesDeclared(items, k, id);
      }
    }
  }

  lemma SettleKeepsHeld(exts: seq<Ext>, items: seq<Item>, scan: Scan, item: Item, start: Reg)
    requires NamesDistinct(exts) && Fit(exts, scan) && item.b < |exts| && BestOk(exts, items, scan.best)
    requires HeldOk(exts, items, scan, start)
    ensures HeldOk(exts, items + [item], Settle(exts, scan, item), start)
  {
    var all, next := items + [item], Settle(exts, scan, item);
    forall k: nat, id | k < |exts|
      ensures Holds(next.reg, k, id) <==> Holds(start, k, id) && Keeps(all, next.best, k, id)
    {
      SettleHolds(exts, items, scan, item, start, k, id);
    }
  }

  lemma SettleKeepsActive(exts: seq<Ext>, items: seq<Item>, scan: Scan, item: Item, start: Reg)
    requires NamesDistinct(exts) && Fit(exts, scan) && item.b < |exts| && BestOk(exts, items, scan.best)
    requires HeldOk(exts, items, scan, start) && ActiveOk(exts, items, scan, start)
    ensures ActiveOk(exts, items + [item], Settle(exts, scan, item), start)
  {
    var all, next := items + [item], Settle(exts, scan, item);
    assert all[..|items|] == items;
    SettleKeepsHeld(exts, items, scan, item, start);
    SettleKeepsBest(exts, items, scan, item);
    if item.id in scan.best {
      var w := next.best[item.id];
      assert Times(all, w, item.id) > 0;
      assert Holds(next.reg, w, item.id) <==> Holds(start, w, item.id) && Times(all, w, item.id) == 1;
    }
  }

  lemma SettledStep(exts: seq<Ext>, items: seq<Item>, scan: Scan, item: Item, start: Reg)
    requires NamesDistinct(exts) && Fit(exts, scan) && item.b < |exts| && BestOk(exts, items, scan.best)
    requires HeldOk(exts, items, scan, start) && ActiveOk(exts, items, scan, start)
    ensures var next := Settle(exts, scan, item);
            && BestOk(exts, items + [item], next.best) && HeldOk(exts, items + [item], next, start)
            && ActiveOk(exts, items + [item], next, start)
  {
    SettleKeepsBest(exts, items, scan, item);
    SettleKeepsHeld(exts, items, scan, item, start);
    SettleKeepsActive(exts, items, scan, item, start);
  }

  lemma {:induction false} SettledOk(exts: seq<Ext>, start: Reg, items: seq<Item>)
    requires NamesDistinct(exts) && Sized(start, |exts|) && Within(items, |exts|)
    ensures var scan := SettleAll(exts, start, items);
            BestOk(exts, items, scan.best) && HeldOk(exts, items, scan, start) && ActiveOk(exts, items, scan, start)
  {
    if |items| > 0 {
      var front, last := items[..|items| - 1], items[|items| - 1];
      SettledOk(exts, start, front);
      assert items == front + [last];
      SettledStep(exts, front, SettleAll(exts, start, front), last, start);
    }
  }

  function CountIn(auth: seq<AuthSpec>, id: string): nat {
    if |auth| == 0 then 0 else CountIn(auth[..|auth| - 1], id) + if auth[|auth| - 1].id == id then 1 else 0
  }

  ghost predicate Declares(exts: seq<Ext>, b: nat, id: string) {
    b < |exts| && CountIn(exts[b].auth, id) > 0
  }

  /** As after RegisterAuthProviders of every bridge: some declarer of each id is active. */
  ghost predicate AllRegistered(exts: seq<Ext>, reg: Reg) {
    && Sized(reg, |exts|)
    && (forall b: nat, id | b < |exts| :: Holds(reg, b, id) <==> Declares(exts, b, id))
    && (forall b: nat, id | Declares(exts, b, id) :: id in reg.registry && Declares(exts, reg.registry[id], id))
  }

  /** The unique maximum: highest scope, then alphabetically first name. */
  ghost predicate IsWinner(exts: seq<Ext>, id: string, w: nat) {
    Declares(exts, w, id) && forall b: nat | Declares(exts, b, id) && b != w :: Beats(exts, w, b)
  }

  lemma {:induction false} TimesConcat(a: seq<Item>, c: seq<Item>, b: nat, id: string)
    ensures Times(a + c, b, id) == Times(a, b, id) + Times(c, b, id)
  {
    if |c| == 0 {
      assert a + c == a;
    } else {
      assert (a + c)[..|a + c| - 1] == a + c[..|c| - 1];
      TimesConcat(a, c[..|c| - 1], b, id);
    }
  }

  lemma {:induction false} TimesOf(exts: seq<Ext>, b: nat, p: nat, k: nat, id: string)
    requires b < |exts| && p <= |exts[b].auth|
    ensures Times(ItemsOf(exts, b, p), k, id) == if k == b then CountIn(exts[b].auth[..p], id) else 0
  {
    if p > 0 {
      TimesOf(exts, b, p - 1, k, id);
      var items := ItemsOf(exts, b, p);
      assert items[..|items| - 1] == ItemsOf(exts, b, p - 1);
      assert exts[b].auth[..p][..p - 1] == exts[b].auth[..p - 1];
    }
  }

  lemma {:induction false} TimesInAll(exts: seq<Ext>, n: nat, k: nat, id: string)
    requires n <= |exts|
    ensures Times(Items(exts, n), k, id) == if k < n then CountIn(exts[k].auth, id) else 0
  {
    if n > 0 {
      TimesInAll(exts, n - 1, k, id);
      var b := n - 1;
      TimesConcat(Items(exts, b), ItemsOf(exts, b, |exts[b].auth|), k, id);
      TimesOf(exts, b, |exts[b].auth|, k, id);
      assert exts[b].auth[..|exts[b].auth|] == exts[b].auth;
    }
  }

  lemma {:induction false} TwoDeclarers(items: seq<Item>, a: nat, b: nat, id: string)
    requires a != b
    ensures Times(items, a, id) + Times(items, b, id) <= Declared(items, id)
  {
    if |items| > 0 {
      TwoDeclarers(items[..|items| - 1], a, b, id);
    }
  }

  /** After resolution, for any order of the bridges: no loser still holds the id, and its owner is the unique maximum
      by scope and then name - exactly when that extension declares the id once. One that declares it twice takes
      itself for a rival and unregisters the id altogether. */
  lemma ConflictsResolved(exts: seq<Ext>, start: Reg, id: string, w: nat)
    requires NamesDistinct(exts) && AllRegistered(exts, start) && IsWinner(exts, id, w)
    ensures Within(Items(exts, |exts|), |exts|)
    ensures var reg := SettleAll(exts, start, Items(exts, |exts|)).reg;
            && (forall b: nat | b < |exts| && b != w :: !Holds(reg, b, id))
            && (CountIn(exts[w].auth, id) == 1 <==> id in reg.registry && reg.registry[id] == w && Holds(reg, w, id))
            && (CountIn(exts[w].auth, id) != 1 <==> id !in reg.registry && !Holds(reg, w, id))
  {
    var items := Items(exts, |exts|);
    ItemsWithin(exts, |exts|);
    TimesInAll(exts, |exts|, w, id);
    SettledOk(exts, start, items);
    var scan := SettleAll(exts, start, items);
    TimesDeclared(items, w, id);
    assert scan.best[id] == w by {
      TimesInAll(exts, |exts|, scan.best[id], id);
      BeatsOrder(exts, w, scan.best[id], w);
    }
    forall b: nat | b < |exts| && b != w ensures !Holds(scan.reg, b, id) {
      TimesInAll(exts, |exts|, b, id);
    }
    assert Holds(scan.reg, w, id) <==> Holds(start, w, id) && Times(items, w, id) == 1;
    if Declared(items, id) <= 1 {
      var owner := start.registry[id];
      TimesInAll(exts, |exts|, owner, id);
      if owner != w {
        TwoDeclarers(items, owner, w, id);
      }
    }
  }

  ghost predicate DeclaredIn(exts: seq<Ext>, id: string, scope: string) {
    exists b: nat :: Declares(exts, b, id) && exts[b].scope == scope
  }

  /** The outcome in names. With the id declared once by each, its owner is a project extension if one declares it, else a
      global one, else a package's, else a builtin, else one of no known scope; and no declarer of the owner's scope comes
      before it by name. Nobody else holds the id. */
  lemma OwnerByScope(exts: seq<Ext>, start: Reg, id: string, b: nat)
    requires NamesDistinct(exts) && AllRegistered(exts, start) && Declares(exts, b, id)
    requires forall k: nat | Declares(exts, k, id) :: CountIn(exts[k].auth, id) == 1
    ensures Within(Items(exts, |exts|), |exts|)
    ensures var reg := SettleAll(exts, start, Items(exts, |exts|)).reg;
            && id in reg.registry && Declares(exts, reg.registry[id], id)
            && var w := reg.registry[id];
               && (if DeclaredIn(exts, id, "project") then exts[w].scope == "project"
                   else if DeclaredIn(exts, id, "global") then exts[w].scope == "global"
                   else if DeclaredIn(exts, id, "package") then exts[w].scope == "package"
                   else DeclaredIn(exts, id, "builtin") ==> exts[w].scope == "builtin")
               && (forall k: nat | Declares(exts, k, id) && k != w && exts[k].scope == exts[w].scope ::
                     Less(exts[w].name, exts[k].name))
               && (forall k: nat | k < |exts| && k != w :: !Holds(reg, k, id))
  {
    var w := WinnerExists(exts, id, b);
    ConflictsResolved(exts, start, id, w);
    forall k: nat | Declares(exts, k, id) && k != w
      ensures !HigherScope(exts[k].scope, exts[w].scope)
      ensures exts[k].scope == exts[w].scope ==> Less(exts[w].name, exts[k].name)
    {
      ScopesRanked(exts[w].scope, exts[k].scope);
      ScopesRanked(exts[k].scope, exts[w].scope);
    }
  }

  /** A declared id has a winner, and only one. */
  lemma WinnerExists(exts: seq<Ext>, id: string, b: nat) returns (w: nat)
    requires NamesDistinct(exts) && Declares(exts, b, id)
    ensures IsWinner(exts, id, w)
    ensures forall v: nat | IsWinner(exts, id, v) :: v == w
  {
    w := b;
    var k := 0;
    while k < |exts|
      invariant k <= |exts| && Declares(exts, w, id)
      invariant forall v: nat | v < k && Declares(exts, v, id) && v != w :: Beats(exts, w, v)
    {
      if Declares(exts, k, id) && k != w && !Beats(exts, w, k) {
        forall v: nat | v < k && Declares(exts, v, id) && v != k ensures Beats(exts, k, v) {
          BeatsOrder(exts, k, w, v);
        }
        w := k;
      }
      k := k + 1;
    }
    forall v: nat | IsWinner(exts, id, v) ensures v == w {
      BeatsOrder(exts, v, w, v);
    }
  }

  /** Ids nobody declares are left as they were. */
  lemma UndeclaredUntouched(exts: seq<Ext>, start: Reg, id: string)
    requires NamesDistinct(exts) && AllRegistered(exts, start) && forall b: nat :: !Declares(exts, b, id)
    ensures Within(Items(exts, |exts|), |exts|)
    ensures var reg := SettleAll(exts, start, Items(exts, |exts|)).reg;
            (id in reg.registry <==> id in start.registry) && (id in start.registry ==> reg.registry[id] == start.registry[id])
  {
    var items := Items(exts, |exts|);
    ItemsWithin(exts, |exts|);
    SettledOk(exts, start, items);
    var scan := SettleAll(exts, start, items);
    forall k: nat | k < |exts| ensures Times(items, k, id) == 0 {
      TimesInAll(exts, |exts|, k, id);
      assert !Declares(exts, k, id);
    }
  }

  /** It happens: an extension alone with its id, declared twice, loses it. */
  lemma DoubleDeclarationLosesId()
    ensures var exts := [Ext("a", "global", [AuthSpec("x", false), AuthSpec("x", false)])];
            var start := Reg(map["x" := 0], [["x", "x"]], [[]]);
            && NamesDistinct(exts) && AllRegistered(exts, start) && IsWinner(exts, "x", 0)
            && Within(Items(exts, 1), 1) && "x" !in SettleAll(exts, start, Items(exts, 1)).reg.registry
  {
    var auth := [AuthSpec("x", false), AuthSpec("x", false)];
    var exts := [Ext("a", "global", auth)];
    var start := Reg(map["x" := 0], [["x", "x"]], [[]]);
    CountTwo(auth, "x");
    assert Declares(exts, 0, "x");
    forall b: nat, id | b < |exts| ensures Holds(start, b, id) <==> Declares(exts, b, id) {
      CountTwo(auth, id);
    }
    forall b: nat, id | Declares(exts, b, id) ensures id == "x" {
      CountTwo(auth, id);
    }
    ConflictsResolved(exts, start, "x", 0);
  }

  lemma CountTwo(auth: seq<AuthSpec>, id: string)
    requires |auth| == 2
    ensures CountIn(auth, id) == (if auth[0].id == id then 1 else 0) + (if auth[1].id == id then 1 else 0)
  {
    assert auth[..1][..0] == [];
    assert CountIn(auth[..1][..0], id) == 0;
  }

  // ---- registration, by all bridges at once ----

  /** How many providers each bridge has registered so far. */
  datatype Starting = Starting(done: seq<nat>, reg: Reg)

  ghost predicate StartStep(exts: seq<Ext>, s: Starting, b: nat, t: Starting) {
    && |s.done| == |exts| && Sized(s.reg, |exts|) && b < |exts| && s.done[b] < |exts[b].auth|
    && t == Starting(s.done[b := s.done[b] + 1], RegisteredOne(s.reg, b, exts[b].auth[s.done[b]]))
  }

  ghost predicate StartRun(exts: seq<Ext>, states: seq<Starting>, order: seq<nat>) {
    && |states| == |order| + 1
    && (forall i | 0 <= i < |states| :: |states[i].done| == |exts|) && Sized(states[0].reg, |exts|)
    && (forall b | 0 <= b < |exts| :: states[0].done[b] == 0 && states[0].reg.own[b] == [] && states[0].reg.generic[b] == [])
    && forall i | 0 <= i < |order| :: StartStep(exts, states[i], order[i], states[i + 1])
  }

  ghost predicate SoFar(exts: seq<Ext>, s: Starting, b: nat, id: string)
    requires |s.done| == |exts| && b < |exts|
  {
    s.done[b] <= |exts[b].auth| && CountIn(exts[b].auth[..s.done[b]], id) > 0
  }

  ghost predicate StartInv(exts: seq<Ext>, s: Starting) {
    && |s.done| == |exts| && Sized(s.reg, |exts|)
    && (forall b | 0 <= b < |exts| :: s.done[b] <= |exts[b].auth|)
    && (forall b: nat, id | b < |exts| :: Holds(s.reg, b, id) <==> SoFar(exts, s, b, id))
    && (forall b: nat, id | b < |exts| && SoFar(exts, s, b, id) ::
          id in s.reg.registry && s.reg.registry[id] < |exts| && SoFar(exts, s, s.reg.registry[id], id))
  }

  lemma SoFarGrows(exts: seq<Ext>, s: Starting, b: nat, t: Starting, k: nat, id: string)
    requires StartInv(exts, s) && StartStep(exts, s, b, t) && k < |exts|
    ensures SoFar(exts, t, k, id) <==> SoFar(exts, s, k, id) || (k == b && exts[b].auth[s.done[b]].id == id)
    ensures Holds(t.reg, k, id) <==> Holds(s.reg, k, id) || (k == b && exts[b].auth[s.done[b]].id == id)
  {
    if k == b {
      assert exts[b].auth[..s.done[b] + 1][..s.done[b]] == exts[b].auth[..s.done[b]];
    }
  }

  lemma StartStepKeepsInv(exts: seq<Ext>, s: Starting, b: nat, t: Starting)
    requires StartInv(exts, s) && StartStep(exts, s, b, t)
    ensures StartInv(exts, t)
  {
    forall k: nat, id | k < |exts|
      ensures (SoFar(exts, t, k, id) <==> SoFar(exts, s, k, id) || (k == b && exts[b].auth[s.done[b]].id == id))
           && (Holds(t.reg, k, id) <==> Holds(s.reg, k, id) || (k == b && exts[b].auth[s.done[b]].id == id))
    {
      SoFarGrows(exts, s, b, t, k, id);
    }
  }

  lemma {:induction false} StartReaches(exts: seq<Ext>, states: seq<Starting>, order: seq<nat>, i: nat)
    requires StartRun(exts, states, order) && i < |states|
    ensures StartInv(exts, states[i])
  {
    if i > 0 {
      StartReaches(exts, states, order, i - 1);
      assert StartStep(exts, states[i - 1], order[i - 1], states[i - 1 + 1]);
      StartStepKeepsInv(exts, states[i - 1], order[i - 1], states[i]);
    } else {
      assert forall b | 0 <= b < |exts| :: exts[b].auth[..0] == [];
    }
  }

  /** However the starting extensions interleave, once all have registered some declarer of each id is active. */
  lemma RegistrationsInterleave(exts: seq<Ext>, states: seq<Starting>, order: seq<nat>)
    requires StartRun(exts, states, order)
    requires forall b | 0 <= b < |exts| :: states[|order|].done[b] == |exts[b].auth|
    ensures AllRegistered(exts, states[|order|].reg)
  {
    var s := states[|order|];
    StartReaches(exts, states, order, |order|);
    forall b: nat, id | b < |exts| ensures SoFar(exts, s, b, id) <==> Declares(exts, b, id) {
      assert exts[b].auth[..|exts[b].auth|] == exts[b].auth;
    }
  }

  /** Providers with a flow enter the generic list, the others the extension's own. */
  lemma {:induction false} RegisteredKinds(reg: Reg, b: nat, specs: seq<AuthSpec>, id: string)
    requires Sized(reg, |reg.own|) && b < |reg.own|
    ensures id in Registered(reg, b, specs).own[b] <==> id in reg.own[b] || AuthSpec(id, false) in specs
    ensures id in Registered(reg, b, specs).generic[b] <==> id in reg.generic[b] || AuthSpec(id, true) in specs
  {
    if |specs| > 0 {
      var front, last := specs[..|specs| - 1], specs[|specs| - 1];
      RegisteredKinds(reg, b, front, id);
      assert specs == front + [last];
      assert forall spec :: spec in specs <==> spec in front || spec == last;
    }
  }

  // ---- starts and reloads ----

  /** Each declared id is served by its winner. */
  ghost predicate WinnersOwn(exts: seq<Ext>, reg: Reg) {
    && Sized(reg, |exts|)
    && forall b: nat, id | Declares(exts, b, id) :: id in reg.registry && IsWinner(exts, id, reg.registry[id])
  }

  /** A start leaves it so if and only if every winner declares its id once. */
  lemma StartGivesWinnersExactly(exts: seq<Ext>, start: Reg)
    requires NamesDistinct(exts) && AllRegistered(exts, start)
    ensures Within(Items(exts, |exts|), |exts|)
    ensures WinnersOwn(exts, SettleAll(exts, start, Items(exts, |exts|)).reg) <==>
            forall w: nat, id | IsWinner(exts, id, w) :: CountIn(exts[w].auth, id) == 1
  {
    ItemsWithin(exts, |exts|);
    var reg := SettleAll(exts, start, Items(exts, |exts|)).reg;
    forall w: nat, id | IsWinner(exts, id, w)
      ensures id in reg.registry && IsWinner(exts, id, reg.registry[id]) <==> CountIn(exts[w].auth, id) == 1
    {
      ConflictsResolved(exts, start, id, w);
    }
    forall b: nat, id | Declares(exts, b, id) ensures exists w: nat :: IsWinner(exts, id, w) {
      var w := WinnerExists(exts, id, b);
    }
    assert forall w: nat, id | IsWinner(exts, id, w) :: Declares(exts, w, id);
  }

  lemma {:induction false} RegisteredServes(reg: Reg, b: nat, specs: seq<AuthSpec>, id: string)
    requires Sized(reg, |reg.own|) && b < |reg.own|
    ensures var r := Registered(reg, b, specs).registry;
            if CountIn(specs, id) > 0 then id in r && r[id] == b
            else (id in r <==> id in reg.registry) && (id in r ==> r[id] == reg.registry[id])
  {
    if |specs| > 0 {
      RegisteredServes(reg, b, specs[..|specs| - 1], id);
    }
  }

  lemma {:induction false} CountedIsListed(specs: seq<AuthSpec>, id: string)
    ensures CountIn(specs, id) > 0 <==> exists i :: 0 <= i < |specs| && specs[i].id == id
  {
    if |specs| > 0 {
      var n := |specs| - 1;
      CountedIsListed(specs[..n], id);
      if i :| 0 <= i < n && specs[..n][i].id == id {
        assert specs[i].id == id;
      }
      if i :| 0 <= i < |specs| && specs[i].id == id {
        assert i < n ==> specs[..n][i].id == id;
      }
    }
  }

  lemma ReloadServes(reg: Reg, b: nat, prior: Ext, next: Ext, id: string)
    requires Sized(reg, |reg.own|) && b < |reg.own|
    ensures var r := ReloadedAt(reg, b, prior, next).registry;
            if CountIn(next.auth, id) > 0 then id in r && r[id] == b
            else if CountIn(prior.auth, id) > 0 then id !in r
            else (id in r <==> id in reg.registry) && (id in r ==> r[id] == reg.registry[id])
  {
    RegisteredServes(UnregisteredAll(reg, b, prior.auth), b, next.auth, id);
    CountedIsListed(prior.auth, id);
  }

  /** A builtin is never reloaded; every other extension that discovery finds is, and so is one that is gone. */
  lemma OnlyBuiltinsRefused(s: Running, b: nat, ext: Ext)
    requires Sized(s.reg, |s.exts|) && b < |s.exts|
    ensures ext.scope == "builtin" ==> AfterReload(s, b, Discovered(ext)) == s
    ensures ext.scope != "builtin" ==> AfterReload(s, b, Discovered(ext)).exts == s.exts[b := ext]
    ensures AfterReload(s, b, Gone).exts == s.exts[b := s.exts[b].(auth := [])]
    ensures forall id | id in AfterReload(s, b, Gone).reg.registry :: id in s.reg.registry && CountIn(s.exts[b].auth, id) == 0
  {
    forall id | id in AfterReload(s, b, Gone).reg.registry ensures id in s.reg.registry && CountIn(s.exts[b].auth, id) == 0 {
      ReloadServes(s.reg, b, s.exts[b], s.exts[b].(auth := []), id);
    }
  }

  datatype Running = Running(exts: seq<Ext>, reg: Reg)

  /** The extensions and the registry after ReloadOne of the name of bridge b. */
  function AfterReload(s: Running, b: nat, found: Found): Running
    requires Sized(s.reg, |s.exts|) && b < |s.exts|
  {
    if Refused(found) then s
    else
      var next := Next(s.exts[b], found);
      Running(s.exts[b := next], ReloadedAt(s.reg, b, s.exts[b], next))
  }

  /** What a reload must meet, from the declarations alone: it is refused, or what comes up wins all it declares and nobody
      else declares what it gives up. */
  ghost predicate HarmlessAt(exts: seq<Ext>, b: nat, found: Found, id: string)
    requires b < |exts|
  {
    var next := Next(exts[b], found);
    || Refused(found)
    || (&& (CountIn(next.auth, id) > 0 ==> IsWinner(exts[b := next], id, b))
        && (CountIn(exts[b].auth, id) > 0 && CountIn(next.auth, id) == 0 ==>
              forall k: nat | Declares(exts, k, id) :: k == b))
  }

  lemma SameWinner(exts: seq<Ext>, b: nat, next: Ext, id: string, w: nat)
    requires b < |exts| && CountIn(exts[b].auth, id) == 0 && CountIn(next.auth, id) == 0 && IsWinner(exts, id, w)
    ensures IsWinner(exts[b := next], id, w)
  {
    var after := exts[b := next];
    assert Declares(after, w, id);
    forall k: nat | Declares(after, k, id) && k != w ensures Beats(after, w, k) {
      assert Declares(exts, k, id) && Beats(exts, w, k);
    }
  }

  ghost predicate ServedByWinner(s: Running, id: string) {
    (exists k: nat :: Declares(s.exts, k, id)) ==>
      id in s.reg.registry && IsWinner(s.exts, id, s.reg.registry[id])
  }

  lemma WinnersServe(s: Running)
    requires Sized(s.reg, |s.exts|)
    ensures WinnersOwn(s.exts, s.reg) <==> forall id :: ServedByWinner(s, id)
  {
    if forall id :: ServedByWinner(s, id) {
      forall b: nat, id | Declares(s.exts, b, id) ensures id in s.reg.registry && IsWinner(s.exts, id, s.reg.registry[id]) {
        assert ServedByWinner(s, id);
      }
    }
  }

  /** For one id: it is served by its winner after the reload if and only if the reload is harmless to it. */
  lemma ReloadKeepsIdExactly(s: Running, b: nat, found: Found, id: string)
    requires WinnersOwn(s.exts, s.reg) && b < |s.exts|
    ensures ServedByWinner(AfterReload(s, b, found), id) <==> HarmlessAt(s.exts, b, found, id)
  {
    if Refused(found) {
      WinnersServe(s);
    } else {
      AcceptedKeepsIdExactly(s, b, found, id);
    }
  }

  lemma AcceptedKeepsIdExactly(s: Running, b: nat, found: Found, id: string)
    requires WinnersOwn(s.exts, s.reg) && b < |s.exts| && !Refused(found)
    ensures ServedByWinner(AfterReload(s, b, found), id) <==> HarmlessAt(s.exts, b, found, id)
  {
    var exts, next := s.exts, Next(s.exts[b], found);
    var after := exts[b := next];
    ReloadServes(s.reg, b, exts[b], next, id);
    if CountIn(next.auth, id) > 0 {
      assert Declares(after, b, id);
    } else if CountIn(exts[b].auth, id) > 0 {
      if k: nat :| Declares(exts, k, id) && k != b {
        assert Declares(after, k, id);
      }
      if k: nat :| Declares(after, k, id) {
        assert Declares(exts, k, id) && k != b;
      }
    } else {
      if k: nat :| Declares(after, k, id) {
        assert Declares(exts, k, id);
        SameWinner(exts, b, next, id, s.reg.registry[id]);
      }
    }
  }

  /** ReloadOne never resolves conflicts; every id is still served by its winner if and only if the reload is harmless. */
  lemma ReloadKeepsWinnersExactly(s: Running, b: nat, found: Found)
    requires WinnersOwn(s.exts, s.reg) && b < |s.exts|
    ensures var t := AfterReload(s, b, found);
            WinnersOwn(t.exts, t.reg) <==> forall id :: HarmlessAt(s.exts, b, found, id)
  {
    WinnersServe(AfterReload(s, b, found));
    forall id ensures ServedByWinner(AfterReload(s, b, found), id) <==> HarmlessAt(s.exts, b, found, id) {
      ReloadKeepsIdExactly(s, b, found, id);
    }
  }

  ghost predicate HarmlessReload(s: Running, b: nat, found: Found, t: Running) {
    && Sized(s.reg, |s.exts|) && b < |s.exts| && t == AfterReload(s, b, found)
    && forall id :: HarmlessAt(s.exts, b, found, id)
  }

  /** So from a start without double declarations, over any run of harmless reloads, refused ones among them, every id is
      served by its winner. */
  lemma {:induction false} WinnersServeOverRuns(states: seq<Running>, bs: seq<nat>, founds: seq<Found>, i: nat)
    requires |states| == |bs| + 1 == |founds| + 1 && i < |states| && WinnersOwn(states[0].exts, states[0].reg)
    requires forall k | 0 <= k < |bs| :: HarmlessReload(states[k], bs[k], founds[k], states[k + 1])
    ensures WinnersOwn(states[i].exts, states[i].reg)
  {
    if i > 0 {
      WinnersServeOverRuns(states, bs, founds, i - 1);
      assert HarmlessReload(states[i - 1], bs[i - 1], founds[i - 1], states[i - 1 + 1]);
      ReloadKeepsWinnersExactly(states[i - 1], bs[i - 1], founds[i - 1]);
    }
  }

  /** Reloads do harm: of two extensions that declare one id, the project's serves it; reloading the global one, unchanged,
      takes it away. */
  lemma ReloadStealsId()
    ensures var exts := [Ext("a", "project", [AuthSpec("x", false)]), Ext("b", "global", [AuthSpec("x", false)])];
            var s := Running(exts, Reg(map["x" := 0], [["x"], []], [[], []]));
            && NamesDistinct(exts) && WinnersOwn(exts, s.reg) && IsWinner(exts, "x", 0) && !Refused(Discovered(exts[1]))
            && AfterReload(s, 1, Discovered(exts[1])).exts == exts
            && AfterReload(s, 1, Discovered(exts[1])).reg.registry == map["x" := 1]
  {
    var exts := [Ext("a", "project", [AuthSpec("x", false)]), Ext("b", "global", [AuthSpec("x", false)])];
    var reg := Reg(map["x" := 0], [["x"], []], [[], []]);
    forall id ensures CountIn([AuthSpec("x", false)], id) == if id == "x" then 1 else 0 {
      assert [AuthSpec("x", false)][..0] == [];
      assert CountIn([AuthSpec("x", false)][..0], id) == 0;
    }
    assert Declares(exts, 0, "x") && Declares(exts, 1, "x") && Beats(exts, 0, 1);
    forall id ensures id in ReloadedAt(reg, 1, exts[1], exts[1]).registry <==> id == "x" {
      ReloadServes(reg, 1, exts[1], exts[1], id);
    }
    ReloadServes(reg, 1, exts[1], exts[1], "x");
  }
}
