/** The pending-call table of the extension bridge (pkg/extension/bridge.go): request ids are matched to waiting
    callers as section 5 of the JSON-RPC 2.0 specification asks, under concurrent calls, responses, write failures,
    timeouts, cancellations and a close. */
module BridgeCalls {

  /** A response: routed from the extension under a request id, or made up by failAllPending. */
  datatype Message = Reply(id: nat, payload: int) | ConnectionClosed

  /** What pendingMu guards, plus the id counter. A channel is known by the caller that made it. */
  datatype Table = Table(nextID: nat, pending: map<nat, nat>, closed: bool)

  const FIRST_ID: nat := 100

  // ---- the critical sections ----

  function Registered(t: Table, id: nat, ch: nat): Table {
    if t.closed then t else t.(pending := t.pending[id := ch])
  }

  function Forgotten(t: Table, id: nat): Table { t.(pending := t.pending - {id}) }

  function Shut(t: Table): Table { t.(pending := map[], closed := true) }

  /** A delivery on its way to a channel, after the table has let go of it. */
  datatype Delivery = Delivery(ch: nat, msg: Message)

  ghost predicate Enumerates(order: seq<nat>, keys: set<nat>) {
    && (forall id :: id in order <==> id in keys)
    && (forall i, j | 0 <= i < j < |order| :: order[i] != order[j])
  }

  function CloseDeliveries(pending: map<nat, nat>, order: seq<nat>): seq<Delivery>
    requires forall i | 0 <= i < |order| :: order[i] in pending
  {
    seq(|order|, i requires 0 <= i < |order| => Delivery(pending[order[i]], ConnectionClosed))
  }

  class Bridge {
    var nextID: nat
    var pending: map<nat, nat>
    var closed: bool

    ghost function State(): Table
      reads this
    {
      Table(nextID, pending, closed)
    }

    constructor ()
      ensures State() == Table(FIRST_ID, map[], false)
    {
      nextID, pending, closed := FIRST_ID, map[], false;
    }

    method TakeID() returns (id: nat)
      modifies this`nextID
      ensures id == old(nextID) + 1 && State() == old(State()).(nextID := id)
    {
      nextID := nextID + 1;
      id := nextID;
    }

    method Register(id: nat, ch: nat) returns (ok: bool)
      modifies this`pending
      ensures ok <==> !closed
      ensures State() == Registered(old(State()), id, ch)
    {
      if closed {
        return false;
      }
      pending := pending[id := ch];
      ok := true;
    }

    method Forget(id: nat)
      modifies this`pending
      ensures State() == Forgotten(old(State()), id)
    {
      pending := pending - {id};
    }

    /** routeResponse: look up and delete in one section; the send comes after it. */
    method RouteResponse(id: nat, payload: int) returns (out: seq<Delivery>)
      modifies this`pending
      ensures State() == Forgotten(old(State()), id)
      ensures out == if id in old(pending) then [Delivery(old(pending)[id], Reply(id, payload))] else []
    {
      out := [];
      if id in pending {
        out := [Delivery(pending[id], Reply(id, payload))];
        pending := pending - {id};
      } else {
        assert pending - {id} == pending;
      }
    }

    /** failAllPending: swap the table for an empty one and latch closed in one section, then send to every
        channel of the old table, in the order the map happens to be ranged over. */
    method FailAllPending() returns (ghost order: seq<nat>, out: seq<Delivery>)
      modifies this
      ensures State() == Shut(old(State()))
      ensures Enumerates(order, old(pending).Keys) && out == CloseDeliveries(old(pending), order)
    {
      var pend := pending;
      pending, closed := map[], true;
      order, out := [], [];
      var todo := pend.Keys;
      while todo != {}
        invariant todo <= pend.Keys && Enumerates(order, pend.Keys - todo)
        invariant forall i | 0 <= i < |order| :: order[i] in pend
        invariant out == CloseDeliveries(pend, order)
      {
        var id :| id in todo;
        todo := todo - {id};
        order, out := order + [id], out + [Delivery(pend[id], ConnectionClosed)];
      }
    }
  }

  // ---- callers, channels and deliveries, interleaved ----

  datatype Outcome = Got(msg: Message) | CloseError | WriteError | Cancelled | TimedOut

  /** Where a CallHook stands. */
  datatype PC =
    | Numbered                 // id and channel made, not registered
    | Sending                  // registered, request not yet written
    | WriteFailed              // about to forget its id
    | Waiting
    | Leaving(timedOut: bool)  // timed out or cancelled, about to forget its id
    | Returned(outcome: Outcome)

  /** One call: its id, where it stands, what its channel holds, and the sends into it over its life. */
  datatype Call = Call(id: nat, pc: PC, buf: seq<Message>, sends: nat)

  /** `inflight` are sends begun but not done. */
  datatype Sys = Sys(table: Table, calls: map<nat, Call>, inflight: seq<Delivery>)

  datatype Label =
    | Number(c: nat)
    | Register(c: nat)
    | WriteOk(c: nat)
    | WriteFail(c: nat)
    | ForgetFailed(c: nat)
    | Receive(c: nat)
    | GiveUp(c: nat, timedOut: bool)
    | ForgetLeaving(c: nat)
    | Route(id: nat, payload: int)
    | Close(order: seq<nat>)
    | Send(k: nat)

  function Moved(s: Sys, c: nat, pc: PC): Sys
    requires c in s.calls
  {
    s.(calls := s.calls[c := s.calls[c].(pc := pc)])
  }

  ghost predicate At(s: Sys, c: nat, pc: PC) { c in s.calls && s.calls[c].pc == pc }

  ghost predicate Next(s: Sys, l: Label, t: Sys) {
    match l
    case Number(c) =>
      c !in s.calls &&
      var id := s.table.nextID + 1;
      t == s.(table := s.table.(nextID := id), calls := s.calls[c := Call(id, Numbered, [], 0)])
    case Register(c) =>
      At(s, c, Numbered) &&
      t == Moved(s, c, if s.table.closed then Returned(CloseError) else Sending).(table := Registered(s.table, s.calls[c].id, c))
    case WriteOk(c) => At(s, c, Sending) && t == Moved(s, c, Waiting)
    case WriteFail(c) => At(s, c, Sending) && t == Moved(s, c, WriteFailed)
    case ForgetFailed(c) =>
      At(s, c, WriteFailed) &&
      t == Moved(s, c, Returned(WriteError)).(table := Forgotten(s.table, s.calls[c].id))
    case Receive(c) =>
      At(s, c, Waiting) && |s.calls[c].buf| > 0 &&
      t == s.(calls := s.calls[c := s.calls[c].(pc := Returned(Got(s.calls[c].buf[0])), buf := s.calls[c].buf[1..])])
    case GiveUp(c, timedOut) => At(s, c, Waiting) && t == Moved(s, c, Leaving(timedOut))
    case ForgetLeaving(c) =>
      c in s.calls && s.calls[c].pc.Leaving? &&
      t == Moved(s, c, Returned(if s.calls[c].pc.timedOut then TimedOut else Cancelled)).(table := Forgotten(s.table, s.calls[c].id))
    case Route(id, payload) =>
      if id in s.table.pending then
        t == s.(table := Forgotten(s.table, id), inflight := s.inflight + [Delivery(s.table.pending[id], Reply(id, payload))])
      else t == s
    case Close(order) =>
      Enumerates(order, s.table.pending.Keys) &&
      t == s.(table := Shut(s.table), inflight := s.inflight + CloseDeliveries(s.table.pending, order))
    case Send(k) =>
      CanSend(s, k) &&
      var d := s.inflight[k];
      var call := s.calls[d.ch];
      t == s.(calls := s.calls[d.ch := call.(buf := call.buf + [d.msg], sends := call.sends + 1)],
              inflight := s.inflight[..k] + s.inflight[k + 1..])
  }

  /** A channel has room for one response. */
  ghost predicate CanSend(s: Sys, k: nat) {
    k < |s.inflight| && s.inflight[k].ch in s.calls && |s.calls[s.inflight[k].ch].buf| < 1
  }

  ghost predicate Init(s: Sys) {
    s == Sys(Table(FIRST_ID, map[], false), map[], [])
  }

  ghost predicate Run(states: seq<Sys>, labels: seq<Label>) {
    && |states| == |labels| + 1 && Init(states[0])
    && forall i | 0 <= i < |labels| :: Next(states[i], labels[i], states[i + 1])
  }

  // ---- the invariant: one response slot per call ----

  function Bound(inflight: seq<Delivery>, c: nat): nat {
    if |inflight| == 0 then 0
    else Bound(inflight[..|inflight| - 1], c) + if inflight[|inflight| - 1].ch == c then 1 else 0
  }

  function InTable(pending: map<nat, nat>, id: nat): nat { if id in pending then 1 else 0 }

  predicate Fits(msg: Message, id: nat) { msg.Reply? ==> msg.id == id }

  ghost predicate PhaseOk(pc: PC, inTable: nat, bound: nat, sends: nat, buffered: nat) {
    && buffered <= sends
    && match pc
       case Numbered => inTable + bound + sends == 0
       case Returned(_) => inTable == 0 && bound + sends <= 1
       case _ => inTable + bound + sends == 1 && buffered == sends
  }

  /** The response slot of a call is in the table, in flight, or already sent: exactly one of them from
      registration to return, and at most one for ever after. And only responses to its own id get to it. */
  ghost predicate CallOk(call: Call, pending: map<nat, nat>, bound: nat) {
    && PhaseOk(call.pc, InTable(pending, call.id), bound, call.sends, |call.buf|)
    && (forall i | 0 <= i < |call.buf| :: Fits(call.buf[i], call.id))
    && (call.pc.Returned? && call.pc.outcome.Got? ==> Fits(call.pc.outcome.msg, call.id))
  }

  ghost predicate CallsOk(s: Sys) {
    forall c | c in s.calls :: CallOk(s.calls[c], s.table.pending, Bound(s.inflight, c))
  }

  ghost predicate IdsOk(s: Sys) {
    && s.table.nextID >= FIRST_ID
    && (forall c | c in s.calls :: FIRST_ID < s.calls[c].id <= s.table.nextID)
    && (forall a, b | a in s.calls && b in s.calls && a != b :: s.calls[a].id != s.calls[b].id)
  }

  ghost predicate TableOk(s: Sys) {
    && (forall id | id in s.table.pending :: s.table.pending[id] in s.calls && s.calls[s.table.pending[id]].id == id)
    && (s.table.closed ==> s.table.pending == map[])
  }

  ghost predicate InflightOk(s: Sys) {
    forall k | 0 <= k < |s.inflight| :: s.inflight[k].ch in s.calls && Fits(s.inflight[k].msg, s.calls[s.inflight[k].ch].id)
  }

  ghost predicate Inv(s: Sys) { IdsOk(s) && TableOk(s) && InflightOk(s) && CallsOk(s) }

  lemma {:induction false} BoundConcat(a: seq<Delivery>, b: seq<Delivery>, c: nat)
    ensures Bound(a + b, c) == Bound(a, c) + Bound(b, c)
  {
    if |b| == 0 {
      assert a + b == a;
    } else {
      assert (a + b)[..|a + b| - 1] == a + b[..|b| - 1];
      BoundConcat(a, b[..|b| - 1], c);
    }
  }

  lemma BoundOne(d: Delivery, c: nat)
    ensures Bound([d], c) == if d.ch == c then 1 else 0
  {
    assert [d][..0] == [];
  }

  lemma BoundRemove(inflight: seq<Delivery>, k: nat, c: nat)
    requires k < |inflight|
    ensures Bound(inflight, c) == Bound(inflight[..k] + inflight[k + 1..], c) + if inflight[k].ch == c then 1 else 0
  {
    assert inflight == inflight[..k] + ([inflight[k]] + inflight[k + 1..]);
    BoundConcat(inflight[..k], [inflight[k]] + inflight[k + 1..], c);
    BoundConcat([inflight[k]], inflight[k + 1..], c);
    BoundConcat(inflight[..k], inflight[k + 1..], c);
    BoundOne(inflight[k], c);
  }

  lemma {:induction false} BoundAbsent(inflight: seq<Delivery>, c: nat)
    requires forall k | 0 <= k < |inflight| :: inflight[k].ch != c
    ensures Bound(inflight, c) == 0
  {
    if |inflight| > 0 {
      BoundAbsent(inflight[..|inflight| - 1], c);
    }
  }

  /** Closing sends once to each caller in the table. */
  lemma {:induction false} BoundClose(pending: map<nat, nat>, order: seq<nat>, c: nat, id: nat)
    requires forall i | 0 <= i < |order| :: order[i] in pending && (pending[order[i]] == c <==> order[i] == id)
    requires forall i, j | 0 <= i < j < |order| :: order[i] != order[j]
    ensures Bound(CloseDeliveries(pending, order), c) == if id in order then 1 else 0
  {
    if |order| > 0 {
      var front, last := order[..|order| - 1], order[|order| - 1];
      assert order == front + [last];
      BoundClose(pending, front, c, id);
      var ds := CloseDeliveries(pending, order);
      assert ds[..|ds| - 1] == CloseDeliveries(pending, front);
    }
  }

  ghost predicate SameElsewhere(p: map<nat, nat>, q: map<nat, nat>, id: nat) {
    forall x | x != id :: (x in p <==> x in q) && (x in p && x in q ==> p[x] == q[x])
  }

  /** A step of one caller, which keeps its id: the others do not notice. */
  lemma CallerStepKeepsInv(s: Sys, c: nat, call: Call, pending: map<nat, nat>, t: Sys)
    requires Inv(s) && c in s.calls && call.id == s.calls[c].id
    requires t == s.(calls := s.calls[c := call], table := s.table.(pending := pending))
    requires SameElsewhere(pending, s.table.pending, call.id)
    requires call.id in pending ==> !s.table.closed && pending[call.id] == c
    requires CallOk(call, pending, Bound(s.inflight, c))
    ensures Inv(t)
  {
    CallerStepKeepsTable(s, c, call, pending, t);
    CallerStepKeepsIds(s, c, call, t);
    forall q | q in t.calls ensures CallOk(t.calls[q], t.table.pending, Bound(t.inflight, q)) {
      if q != c {
        assert s.calls[q].id != call.id;
        OtherCallStays(s, pending, call.id, q);
      }
    }
  }

  lemma CallerStepKeepsIds(s: Sys, c: nat, call: Call, t: Sys)
    requires IdsOk(s) && InflightOk(s) && c in s.calls && call.id == s.calls[c].id
    requires t.calls == s.calls[c := call] && t.inflight == s.inflight && t.table.nextID == s.table.nextID
    ensures IdsOk(t) && InflightOk(t)
  {
  }

  lemma OtherCallStays(s: Sys, pending: map<nat, nat>, id: nat, q: nat)
    requires CallsOk(s) && q in s.calls && s.calls[q].id != id && SameElsewhere(pending, s.table.pending, id)
    ensures CallOk(s.calls[q], pending, Bound(s.inflight, q))
  {
    assert CallOk(s.calls[q], s.table.pending, Bound(s.inflight, q));
  }

  lemma CallerStepKeepsTable(s: Sys, c: nat, call: Call, pending: map<nat, nat>, t: Sys)
    requires IdsOk(s) && TableOk(s) && c in s.calls && call.id == s.calls[c].id
    requires t == s.(calls := s.calls[c := call], table := s.table.(pending := pending))
    requires SameElsewhere(pending, s.table.pending, call.id)
    requires call.id in pending ==> !s.table.closed && pending[call.id] == c
    ensures TableOk(t)
  {
    if s.table.closed {
      forall id ensures id !in pending {
        assert id != call.id ==> (id in pending <==> id in s.table.pending);
      }
    }
  }

  lemma MoveKeepsInv(s: Sys, c: nat, pc: PC)
    requires Inv(s) && c in s.calls
    requires !s.calls[c].pc.Numbered? && !s.calls[c].pc.Returned? && !pc.Numbered? && !pc.Returned?
    ensures Inv(Moved(s, c, pc))
  {
    assert CallOk(s.calls[c], s.table.pending, Bound(s.inflight, c));
    InTableIsOwn(s, c);
    CallerStepKeepsInv(s, c, s.calls[c].(pc := pc), s.table.pending, Moved(s, c, pc));
  }

  lemma InTableIsOwn(s: Sys, c: nat)
    requires Inv(s) && c in s.calls
    ensures s.calls[c].id in s.table.pending ==> !s.table.closed && s.table.pending[s.calls[c].id] == c
  {
  }

  lemma ForgetKeepsInv(s: Sys, c: nat, why: Outcome)
    requires Inv(s) && c in s.calls && !why.Got? && !s.calls[c].pc.Numbered? && !s.calls[c].pc.Returned?
    ensures Inv(Moved(s, c, Returned(why)).(table := Forgotten(s.table, s.calls[c].id)))
  {
    assert CallOk(s.calls[c], s.table.pending, Bound(s.inflight, c));
    var t := Moved(s, c, Returned(why)).(table := Forgotten(s.table, s.calls[c].id));
    CallerStepKeepsInv(s, c, s.calls[c].(pc := Returned(why)), s.table.pending - {s.calls[c].id}, t);
  }

  lemma RegisterKeepsInv(s: Sys, c: nat, t: Sys)
    requires Inv(s) && Next(s, Register(c), t)
    ensures Inv(t)
  {
    var call := s.calls[c];
    assert CallOk(call, s.table.pending, Bound(s.inflight, c));
    if s.table.closed {
      CallerStepKeepsInv(s, c, call.(pc := Returned(CloseError)), s.table.pending, t);
    } else {
      CallerStepKeepsInv(s, c, call.(pc := Sending), s.table.pending[call.id := c], t);
    }
  }

  lemma ReceiveKeepsInv(s: Sys, c: nat, t: Sys)
    requires Inv(s) && Next(s, Receive(c), t)
    ensures Inv(t)
  {
    var call := s.calls[c];
    assert CallOk(call, s.table.pending, Bound(s.inflight, c));
    assert Fits(call.buf[0], call.id);
    CallerStepKeepsInv(s, c, call.(pc := Returned(Got(call.buf[0])), buf := call.buf[1..]), s.table.pending, t);
  }

  lemma NumberKeepsCall(s: Sys, c: nat, t: Sys, q: nat)
    requires Inv(s) && Next(s, Number(c), t) && q in t.calls
    ensures CallOk(t.calls[q], t.table.pending, Bound(t.inflight, q))
  {
    if q == c {
      BoundAbsent(s.inflight, c);
    } else {
      assert CallOk(s.calls[q], s.table.pending, Bound(s.inflight, q));
    }
  }

  lemma NumberKeepsIds(s: Sys, c: nat, t: Sys)
    requires IdsOk(s) && Next(s, Number(c), t)
    ensures IdsOk(t)
  {
  }

  lemma NumberKeepsTable(s: Sys, c: nat, t: Sys)
    requires TableOk(s) && InflightOk(s) && Next(s, Number(c), t)
    ensures TableOk(t) && InflightOk(t)
  {
  }

  lemma NumberKeepsInv(s: Sys, c: nat, t: Sys)
    requires Inv(s) && Next(s, Number(c), t)
    ensures Inv(t)
  {
    NumberKeepsIds(s, c, t);
    NumberKeepsTable(s, c, t);
    forall q | q in t.calls ensures CallOk(t.calls[q], t.table.pending, Bound(t.inflight, q)) {
      NumberKeepsCall(s, c, t, q);
    }
  }

  lemma RouteKeepsCall(s: Sys, id: nat, d: Delivery, q: nat)
    requires Inv(s) && q in s.calls && id in s.table.pending && d.ch == s.table.pending[id]
    ensures CallOk(s.calls[q], s.table.pending - {id}, Bound(s.inflight + [d], q))
  {
    assert CallOk(s.calls[q], s.table.pending, Bound(s.inflight, q));
    BoundConcat(s.inflight, [d], q);
    BoundOne(d, q);
    assert q == d.ch <==> s.calls[q].id == id;
  }

  lemma RouteKeepsInv(s: Sys, id: nat, payload: int, t: Sys)
    requires Inv(s) && Next(s, Route(id, payload), t)
    ensures Inv(t)
  {
    if id in s.table.pending {
      var d := Delivery(s.table.pending[id], Reply(id, payload));
      forall q | q in t.calls ensures CallOk(t.calls[q], t.table.pending, Bound(t.inflight, q)) {
        RouteKeepsCall(s, id, d, q);
      }
    }
  }

  lemma CloseKeepsCall(s: Sys, order: seq<nat>, t: Sys, q: nat)
    requires Inv(s) && Next(s, Close(order), t) && q in s.calls
    ensures CallOk(t.calls[q], t.table.pending, Bound(t.inflight, q))
  {
    assert CallOk(s.calls[q], s.table.pending, Bound(s.inflight, q));
    BoundConcat(s.inflight, CloseDeliveries(s.table.pending, order), q);
    BoundClose(s.table.pending, order, q, s.calls[q].id);
  }

  lemma CloseKeepsInflight(s: Sys, order: seq<nat>, t: Sys)
    requires TableOk(s) && InflightOk(s) && Next(s, Close(order), t)
    ensures InflightOk(t)
  {
    var ds := CloseDeliveries(s.table.pending, order);
    forall k | 0 <= k < |ds| ensures ds[k].ch in s.calls {
      assert order[k] in s.table.pending;
    }
  }

  lemma CloseKeepsInv(s: Sys, order: seq<nat>, t: Sys)
    requires Inv(s) && Next(s, Close(order), t)
    ensures Inv(t)
  {
    CloseKeepsInflight(s, order, t);
    forall q | q in t.calls ensures CallOk(t.calls[q], t.table.pending, Bound(t.inflight, q)) {
      CloseKeepsCall(s, order, t, q);
    }
  }

  lemma SendKeepsInflight(s: Sys, k: nat, t: Sys)
    requires InflightOk(s) && Next(s, Send(k), t)
    ensures InflightOk(t)
  {
    forall i | 0 <= i < |t.inflight|
      ensures t.inflight[i].ch in t.calls && Fits(t.inflight[i].msg, t.calls[t.inflight[i].ch].id)
    {
      assert t.inflight[i] == s.inflight[if i < k then i else i + 1];
    }
  }

  lemma SendKeepsCall(s: Sys, k: nat, t: Sys, q: nat)
    requires Inv(s) && Next(s, Send(k), t) && q in s.calls
    ensures CallOk(t.calls[q], t.table.pending, Bound(t.inflight, q))
  {
    assert CallOk(s.calls[q], s.table.pending, Bound(s.inflight, q));
    BoundRemove(s.inflight, k, q);
  }

  lemma SendKeepsInv(s: Sys, k: nat, t: Sys)
    requires Inv(s) && Next(s, Send(k), t)
    ensures Inv(t)
  {
    SendKeepsInflight(s, k, t);
    forall q | q in t.calls ensures CallOk(t.calls[q], t.table.pending, Bound(t.inflight, q)) {
      SendKeepsCall(s, k, t, q);
    }
  }

  lemma NextKeepsInv(s: Sys, l: Label, t: Sys)
    requires Inv(s) && Next(s, l, t)
    ensures Inv(t)
  {
    match l
    case Number(c) => NumberKeepsInv(s, c, t);
    case Register(c) => RegisterKeepsInv(s, c, t);
    case WriteOk(c) => MoveKeepsInv(s, c, Waiting);
    case WriteFail(c) => MoveKeepsInv(s, c, WriteFailed);
    case ForgetFailed(c) => ForgetKeepsInv(s, c, WriteError);
    case Receive(c) => ReceiveKeepsInv(s, c, t);
    case GiveUp(c, timedOut) => MoveKeepsInv(s, c, Leaving(timedOut));
    case ForgetLeaving(c) => ForgetKeepsInv(s, c, if s.calls[c].pc.timedOut then TimedOut else Cancelled);
    case Route(id, payload) => RouteKeepsInv(s, id, payload, t);
    case Close(order) => CloseKeepsInv(s, order, t);
    case Send(k) => SendKeepsInv(s, k, t);
  }

  lemma {:induction false} ReachedKeepsInv(states: seq<Sys>, labels: seq<Label>, i: nat)
    requires Run(states, labels) && i < |states|
    ensures Inv(states[i])
  {
    if i > 0 {
      ReachedKeepsInv(states, labels, i - 1);
      assert Next(states[i - 1], labels[i - 1], states[i - 1 + 1]);
      NextKeepsInv(states[i - 1], labels[i - 1], states[i]);
    }
  }

  lemma RunKeepsInv(states: seq<Sys>, labels: seq<Label>)
    requires Run(states, labels)
    ensures forall i | 0 <= i < |states| :: Inv(states[i])
  {
    forall i | 0 <= i < |states| ensures Inv(states[i]) {
      ReachedKeepsInv(states, labels, i);
    }
  }

  // ---- what it gives, over every interleaving ----

  /** Ids are never shared between calls. */
  lemma IdsAreUnique(states: seq<Sys>, labels: seq<Label>, i: nat, a: nat, b: nat)
    requires Run(states, labels) && i < |states| && a in states[i].calls && b in states[i].calls && a != b
    ensures states[i].calls[a].id != states[i].calls[b].id
  {
    ReachedKeepsInv(states, labels, i);
  }

  /** A channel still in the table is empty and has nothing on its way. */
  lemma PendingChannelIsEmpty(states: seq<Sys>, labels: seq<Label>, i: nat, id: nat)
    requires Run(states, labels) && i < |states| && id in states[i].table.pending
    ensures var c := states[i].table.pending[id];
            && c in states[i].calls && states[i].calls[c].buf == [] && states[i].calls[c].sends == 0
            && Bound(states[i].inflight, c) == 0
  {
    ReachedKeepsInv(states, labels, i);
    var c := states[i].table.pending[id];
    assert CallOk(states[i].calls[c], states[i].table.pending, Bound(states[i].inflight, c));
  }

  lemma {:induction false} BoundPresent(inflight: seq<Delivery>, k: nat)
    requires k < |inflight|
    ensures Bound(inflight, inflight[k].ch) >= 1
  {
    BoundRemove(inflight, k, inflight[k].ch);
  }

  /** No send ever blocks, and no channel is ever sent to twice. */
  lemma SendsNeverBlock(states: seq<Sys>, labels: seq<Label>, i: nat)
    requires Run(states, labels) && i < |states|
    ensures forall k | 0 <= k < |states[i].inflight| :: CanSend(states[i], k)
    ensures forall c | c in states[i].calls :: states[i].calls[c].sends <= 1
  {
    ReachedKeepsInv(states, labels, i);
    var s := states[i];
    forall k | 0 <= k < |s.inflight| ensures CanSend(s, k) {
      var c := s.inflight[k].ch;
      BoundPresent(s.inflight, k);
      assert CallOk(s.calls[c], s.table.pending, Bound(s.inflight, c));
    }
    forall c | c in s.calls ensures s.calls[c].sends <= 1 {
      assert CallOk(s.calls[c], s.table.pending, Bound(s.inflight, c));
    }
  }

  /** A response reaches only the caller that registered its id. */
  lemma ResponsesReachTheirCaller(states: seq<Sys>, labels: seq<Label>, i: nat, c: nat, id: nat, payload: int)
    requires Run(states, labels) && i < |states| && At(states[i], c, Returned(Got(Reply(id, payload))))
    ensures states[i].calls[c].id == id
  {
    ReachedKeepsInv(states, labels, i);
    assert CallOk(states[i].calls[c], states[i].table.pending, Bound(states[i].inflight, c));
  }

  // ---- where outcomes come from ----

  ghost predicate Earlier(labels: seq<Label>, i: nat, l: Label) { exists k :: 0 <= k < i && k < |labels| && labels[k] == l }

  ghost predicate HasClosed(labels: seq<Label>, i: nat) { exists k :: 0 <= k < i && k < |labels| && labels[k].Close? }

  /** A reply was routed with its payload, and a made-up response comes from a close. */
  ghost predicate Caused(labels: seq<Label>, i: nat, msg: Message) {
    match msg
    case Reply(id, payload) => Earlier(labels, i, Route(id, payload))
    case ConnectionClosed => HasClosed(labels, i)
  }

  ghost predicate PCCaused(labels: seq<Label>, i: nat, c: nat, pc: PC) {
    match pc
    case WriteFailed => Earlier(labels, i, WriteFail(c))
    case Leaving(timedOut) => Earlier(labels, i, GiveUp(c, timedOut))
    case Returned(Got(msg)) => Caused(labels, i, msg)
    case Returned(CloseError) => HasClosed(labels, i)
    case Returned(WriteError) => Earlier(labels, i, WriteFail(c))
    case Returned(Cancelled) => Earlier(labels, i, GiveUp(c, false))
    case Returned(TimedOut) => Earlier(labels, i, GiveUp(c, true))
    case _ => true
  }

  ghost predicate CallCaused(labels: seq<Label>, i: nat, c: nat, call: Call) {
    PCCaused(labels, i, c, call.pc) && forall n | 0 <= n < |call.buf| :: Caused(labels, i, call.buf[n])
  }

  ghost predicate AllCaused(labels: seq<Label>, i: nat, s: Sys) {
    && (s.table.closed ==> HasClosed(labels, i))
    && (forall k | 0 <= k < |s.inflight| :: Caused(labels, i, s.inflight[k].msg))
    && (forall c | c in s.calls :: CallCaused(labels, i, c, s.calls[c]))
  }

  lemma CausedLater(labels: seq<Label>, i: nat, msg: Message)
    requires Caused(labels, i, msg)
    ensures Caused(labels, i + 1, msg)
  {
    match msg
    case Reply(id, payload) => EarlierLater(labels, i, Route(id, payload));
    case ConnectionClosed => ClosedLater(labels, i);
  }

  lemma EarlierLater(labels: seq<Label>, i: nat, l: Label)
    ensures Earlier(labels, i, l) ==> Earlier(labels, i + 1, l)
  {
    if k :| 0 <= k < i && k < |labels| && labels[k] == l {
      assert labels[k] == l && k < i + 1;
    }
  }

  lemma ClosedLater(labels: seq<Label>, i: nat)
    ensures HasClosed(labels, i) ==> HasClosed(labels, i + 1)
  {
    if k :| 0 <= k < i && k < |labels| && labels[k].Close? {
      assert labels[k].Close? && k < i + 1;
    }
  }

  lemma CallCausedLater(labels: seq<Label>, i: nat, c: nat, call: Call)
    requires CallCaused(labels, i, c, call)
    ensures CallCaused(labels, i + 1, c, call)
  {
    forall n | 0 <= n < |call.buf| ensures Caused(labels, i + 1, call.buf[n]) {
      CausedLater(labels, i, call.buf[n]);
    }
    EarlierLater(labels, i, WriteFail(c));
    EarlierLater(labels, i, GiveUp(c, false));
    EarlierLater(labels, i, GiveUp(c, true));
    ClosedLater(labels, i);
    if call.pc.Returned? && call.pc.outcome.Got? {
      CausedLater(labels, i, call.pc.outcome.msg);
    }
  }

  lemma StepCausesInflight(labels: seq<Label>, i: nat, s: Sys, t: Sys)
    requires i < |labels| && AllCaused(labels, i, s) && Next(s, labels[i], t)
    ensures t.table.closed ==> HasClosed(labels, i + 1)
    ensures forall k | 0 <= k < |t.inflight| :: Caused(labels, i + 1, t.inflight[k].msg)
  {
    var l := labels[i];
    ClosedLater(labels, i);
    forall k | 0 <= k < |t.inflight| ensures Caused(labels, i + 1, t.inflight[k].msg) {
      var from := if l.Send? && k >= l.k then k + 1 else k;
      if from < |s.inflight| {
        assert t.inflight[k] == s.inflight[from];
        CausedLater(labels, i, s.inflight[from].msg);
      } else if l.Route? {
        assert labels[i] == Route(l.id, l.payload) && i < i + 1;
      } else {
        assert labels[i].Close? && i < i + 1;
      }
    }
  }

  lemma StepCausesCall(labels: seq<Label>, i: nat, s: Sys, t: Sys, c: nat)
    requires i < |labels| && AllCaused(labels, i, s) && Next(s, labels[i], t) && c in t.calls
    ensures CallCaused(labels, i + 1, c, t.calls[c])
  {
    var l := labels[i];
    assert Earlier(labels, i + 1, l) by {
      assert labels[i] == l && i < i + 1;
    }
    ClosedLater(labels, i);
    if c in s.calls {
      CallCausedLater(labels, i, c, s.calls[c]);
      if l.Send? && s.inflight[l.k].ch == c {
        CausedLater(labels, i, s.inflight[l.k].msg);
      }
    }
  }

  lemma {:induction false} ReachedIsCaused(states: seq<Sys>, labels: seq<Label>, i: nat)
    requires Run(states, labels) && i < |states|
    ensures AllCaused(labels, i, states[i])
  {
    if i > 0 {
      ReachedIsCaused(states, labels, i - 1);
      assert Next(states[i - 1], labels[i - 1], states[i - 1 + 1]);
      StepCausesInflight(labels, i - 1, states[i - 1], states[i]);
      forall c | c in states[i].calls ensures CallCaused(labels, i, c, states[i].calls[c]) {
        StepCausesCall(labels, i - 1, states[i - 1], states[i], c);
      }
    }
  }

  /** Every outcome has its cause earlier in the run: a reply was routed under the caller's own id with that payload, a
      connection error needs a close, a write error a failed write, a timeout or a cancellation the caller's giving up
      for that reason. */
  lemma OutcomesAreCaused(states: seq<Sys>, labels: seq<Label>, i: nat, c: nat)
    requires Run(states, labels) && i < |states| && c in states[i].calls && states[i].calls[c].pc.Returned?
    ensures match states[i].calls[c].pc.outcome
            case Got(Reply(id, payload)) => id == states[i].calls[c].id && Earlier(labels, i, Route(id, payload))
            case Got(ConnectionClosed) => HasClosed(labels, i)
            case CloseError => HasClosed(labels, i)
            case WriteError => Earlier(labels, i, WriteFail(c))
            case Cancelled => Earlier(labels, i, GiveUp(c, false))
            case TimedOut => Earlier(labels, i, GiveUp(c, true))
  {
    ReachedIsCaused(states, labels, i);
    assert CallCaused(labels, i, c, states[i].calls[c]);
    match states[i].calls[c].pc.outcome
    case Got(Reply(id, payload)) => ResponsesReachTheirCaller(states, labels, i, c, id, payload);
    case _ =>
  }

  /** A waiting caller can always still be answered: its channel is full, or a send to it is under way, or the
      table still has it. After a close the last is out, so nobody waits for ever. */
  lemma NobodyIsForgotten(states: seq<Sys>, labels: seq<Label>, i: nat, c: nat)
    requires Run(states, labels) && i < |states| && At(states[i], c, Waiting)
    ensures var s := states[i];
            || |s.calls[c].buf| == 1
            || (exists k :: 0 <= k < |s.inflight| && s.inflight[k].ch == c && CanSend(s, k))
            || (!s.table.closed && s.calls[c].id in s.table.pending && s.table.pending[s.calls[c].id] == c)
    ensures states[i].table.closed && states[i].inflight == [] ==> |states[i].calls[c].buf| == 1
  {
    ReachedKeepsInv(states, labels, i);
    SendsNeverBlock(states, labels, i);
    var s := states[i];
    assert CallOk(s.calls[c], s.table.pending, Bound(s.inflight, c));
    if Bound(s.inflight, c) > 0 && forall k | 0 <= k < |s.inflight| :: s.inflight[k].ch != c {
      BoundAbsent(s.inflight, c);
    }
  }

  lemma EnumerationNonempty(order: seq<nat>, keys: set<nat>)
    requires Enumerates(order, keys) && |order| > 0
    ensures keys != {}
  {
    assert order[0] in order;
  }

  /** After a close, the sends under way are all that is left to happen before every waiting caller can return:
      no step adds one, and each send takes one away. */
  lemma ClosedDrains(s: Sys, l: Label, t: Sys)
    requires Inv(s) && s.table.closed && Next(s, l, t)
    ensures t.table.closed
    ensures |t.inflight| == |s.inflight| - (if l.Send? then 1 else 0)
    ensures forall c | At(t, c, Waiting) :: At(s, c, Waiting) || At(s, c, Sending)
  {
    if l.Close? && |l.order| > 0 {
      EnumerationNonempty(l.order, s.table.pending.Keys);
    }
  }

  /** The critical sections are those of the methods above: what routing puts in flight is what RouteResponse
      hands over, and closing hands over one message per pending id. */
  lemma CloseReachesEveryPending(pending: map<nat, nat>, order: seq<nat>, id: nat)
    requires Enumerates(order, pending.Keys) && id in pending
    ensures exists k :: 0 <= k < |order| && CloseDeliveries(pending, order)[k] == Delivery(pending[id], ConnectionClosed)
  {
    var k :| 0 <= k < |order| && order[k] == id;
    assert CloseDeliveries(pending, order)[k] == Delivery(pending[id], ConnectionClosed);
  }
}
