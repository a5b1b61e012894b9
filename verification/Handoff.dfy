/** Carrying messages over a context handoff (pkg/extension/session_bridge.go): a restart takes the queued messages,
    its consumption adds what history holds unanswered, and nothing is lost or replayed. */
module Handoff {
  import opened Wrappers

  // ---- messages ----

  datatype Block = TextBlock(s: string) | OtherBlock(n: int)
  datatype Content = Text(s: string) | Blocks(blocks: seq<Block>)
  datatype StopReason = Completed | Aborted | Errored

  /** `Custom` are messages of other kinds (tool results, cards, injected records). */
  datatype Message =
    | User(content: Content, timestamp: int)
    | Assistant(stop: StopReason, text: string)
    | Custom(n: int)

  /** A user message is recognised by content and timestamp together. */
  datatype Key = UserKey(content: Content, timestamp: int) | NoKey

  function CarryKey(m: Message): Key {
    if m.User? then UserKey(m.content, m.timestamp) else NoKey
  }

  const NOTE := "(Sent before the context handoff, which has already happened. Do not hand off again for this message.)\n\n"
  const MACHINERY := "[SYS_EXT]"

  function WithCarriedNote(m: Message): Message
    requires m.User?
  {
    match m.content
    case Text(s) => if NOTE <= s then m else m.(content := Text(NOTE + s))
    case Blocks(bs) =>
      if |bs| > 0 && bs[0] == TextBlock(NOTE) then m else m.(content := Blocks([TextBlock(NOTE)] + bs))
  }

  predicate IsSpace(c: char) { c == ' ' || '\t' <= c <= '\r' }

  predicate Blank(s: string) { forall i | 0 <= i < |s| :: IsSpace(s[i]) }

  /** A completed assistant message with text: an answer. */
  predicate Answers(m: Message) { m.Assistant? && m.stop.Completed? && !Blank(m.text) }

  /** A user message that is not machinery and was not carried in by the last handoff. */
  predicate Plain(m: Message, skip: string, carried: set<Key>) {
    && m.User?
    && !(m.content.Text? && (MACHINERY <= m.content.s || (skip != "" && m.content.s == skip)))
    && CarryKey(m) !in carried
  }

  /** The plain user messages that no answer follows. */
  function Unanswered(msgs: seq<Message>, skip: string, carried: set<Key>): seq<Message> {
    if |msgs| == 0 || Answers(msgs[|msgs| - 1]) then []
    else
      var last := msgs[|msgs| - 1];
      Unanswered(msgs[..|msgs| - 1], skip, carried) + if Plain(last, skip, carried) then [last] else []
  }

  lemma {:induction false} UnansweredFrom(msgs: seq<Message>, start: nat, n: nat, skip: string, carried: set<Key>)
    requires start <= n <= |msgs| && (start > 0 ==> Answers(msgs[start - 1]))
    requires forall i | start <= i < |msgs| :: !Answers(msgs[i])
    ensures n == start ==> Unanswered(msgs[..n], skip, carried) == []
    ensures n > start ==>
              Unanswered(msgs[..n], skip, carried) ==
              (Unanswered(msgs[..n - 1], skip, carried) + if Plain(msgs[n - 1], skip, carried) then [msgs[n - 1]] else [])
  {
    if n > 0 {
      assert msgs[..n][..n - 1] == msgs[..n - 1];
    }
  }

  /** unansweredUserMessages: back to the last answer, then forward collecting. */
  method UnansweredUserMessages(msgs: seq<Message>, skip: string, carried: set<Key>) returns (out: seq<Message>)
    ensures out == Unanswered(msgs, skip, carried)
  {
    var start := 0;
    var i := |msgs|;
    while i > 0
      invariant 0 <= i <= |msgs| && start == 0
      invariant forall j | i <= j < |msgs| :: !Answers(msgs[j])
    {
      i := i - 1;
      if Answers(msgs[i]) {
        start := i + 1;
        break;
      }
    }
    out := [];
    UnansweredFrom(msgs, start, start, skip, carried);
    for n := start to |msgs|
      invariant out == Unanswered(msgs[..n], skip, carried)
    {
      UnansweredFrom(msgs, start, n + 1, skip, carried);
      var m := msgs[n];
      if !m.User? {
        continue;
      }
      if m.content.Text? && (MACHINERY <= m.content.s || (skip != "" && m.content.s == skip)) {
        continue;
      }
      if CarryKey(m) in carried {
        continue;
      }
      out := out + [m];
    }
    assert msgs[..|msgs|] == msgs;
  }

  // ---- the bridge ----

  datatype Request = Request(prompt: string, prepend: string, carried: seq<Message>, requestedAt: int)

  datatype Snapshot = Snapshot(pending: Option<Request>, lastPrompt: string, lastCarried: set<Key>,
                               steer: seq<Message>, followUp: seq<Message>, history: seq<Message>)

  function Restarted(st: Snapshot, prompt: string, prepend: string, now: int): Snapshot {
    var earlier := if st.pending.Some? then st.pending.value.carried else [];
    st.(pending := Some(Request(prompt, prepend, earlier + (st.steer + st.followUp), now)), steer := [], followUp := [])
  }

  function Older(msgs: seq<Message>, at: int): seq<Message> {
    if |msgs| == 0 then []
    else
      var last := msgs[|msgs| - 1];
      Older(msgs[..|msgs| - 1], at) + if last.User? && last.timestamp <= at then [WithCarriedNote(last)] else []
  }

  function Newer(msgs: seq<Message>, at: int): seq<Message> {
    if |msgs| == 0 then []
    else
      var last := msgs[|msgs| - 1];
      Newer(msgs[..|msgs| - 1], at) + if last.User? && last.timestamp > at then [last] else []
  }

  function Keys(msgs: seq<Message>): set<Key> { set i | 0 <= i < |msgs| :: CarryKey(msgs[i]) }

  /** What TakePendingRestart hands to the mode. */
  function Carried(st: Snapshot): seq<Message>
    requires st.pending.Some?
  {
    var req := st.pending.value;
    var plain := Unanswered(st.history, st.lastPrompt, st.lastCarried);
    Older(plain, req.requestedAt) + req.carried + Newer(plain, req.requestedAt)
  }

  function Taken(st: Snapshot): Snapshot
    requires st.pending.Some?
  {
    st.(pending := None, lastPrompt := st.pending.value.prompt, lastCarried := Keys(Carried(st)))
  }

  class Session {
    var steer: seq<Message>
    var followUp: seq<Message>
    var history: seq<Message>

    constructor ()
      ensures steer == [] && followUp == [] && history == []
    {
      steer, followUp, history := [], [], [];
    }

    method TakeQueuedMessages() returns (queued: seq<Message>)
      modifies this`steer, this`followUp
      ensures queued == old(steer) + old(followUp) && steer == [] && followUp == []
    {
      queued := if |steer| == 0 then followUp else steer + followUp;
      steer, followUp := [], [];
    }
  }

  class SessionBridge {
    const session: Session
    var restartSupported: bool
    var pending: Option<Request>
    var lastPrompt: string
    var lastCarried: set<Key>

    ghost function State(): Snapshot
      reads this, session
    {
      Snapshot(pending, lastPrompt, lastCarried, session.steer, session.followUp, session.history)
    }

    constructor (session: Session)
      ensures this.session == session && !restartSupported
      ensures State() == Snapshot(None, "", {}, session.steer, session.followUp, session.history)
    {
      this.session := session;
      restartSupported, pending, lastPrompt, lastCarried := false, None, "", {};
    }

    method RestartSession(prompt: string, prepend: string, now: int) returns (ok: bool)
      modifies this`pending, session`steer, session`followUp
      ensures ok <==> restartSupported
      ensures State() == if ok then Restarted(old(State()), prompt, prepend, now) else old(State())
    {
      if !restartSupported {
        return false;
      }
      var carried := session.TakeQueuedMessages();
      if pending.Some? {
        if |pending.value.carried| > 0 {
          carried := pending.value.carried + carried;
        } else {
          assert pending.value.carried + carried == carried;
        }
      } else {
        assert [] + carried == carried;
      }
      pending := Some(Request(prompt, prepend, carried, now));
      ok := true;
    }

    /** The loop that splits unanswered messages at the time of the request. */
    static method SplitUnanswered(plain: seq<Message>, at: int) returns (before: seq<Message>, after: seq<Message>)
      requires forall i | 0 <= i < |plain| :: plain[i].User?
      ensures before == Older(plain, at) && after == Newer(plain, at)
    {
      before, after := [], [];
      for i := 0 to |plain|
        invariant before == Older(plain[..i], at) && after == Newer(plain[..i], at)
      {
        assert plain[..i + 1][..i] == plain[..i];
        var m := plain[i];
        if m.timestamp > at {
          after := after + [m];
        } else {
          before := before + [WithCarriedNote(m)];
        }
      }
      assert plain[..|plain|] == plain;
    }

    /** The loop that remembers what is handed over. */
    static method KeysOf(msgs: seq<Message>) returns (keys: set<Key>)
      ensures keys == Keys(msgs)
    {
      keys := {};
      for i := 0 to |msgs|
        invariant keys == Keys(msgs[..i])
      {
        KeysSnoc(msgs[..i], msgs[i]);
        assert msgs[..i + 1] == msgs[..i] + [msgs[i]];
        keys := keys + {CarryKey(msgs[i])};
      }
      assert msgs[..|msgs|] == msgs;
    }

    method TakePendingRestart() returns (req: Request, ok: bool)
      modifies this`pending, this`lastPrompt, this`lastCarried
      ensures ok <==> old(pending).Some?
      ensures ok ==> State() == Taken(old(State())) && req == old(pending).value.(carried := Carried(old(State())))
      ensures !ok ==> State() == old(State())
    {
      if pending.None? {
        return Request("", "", [], 0), false;
      }
      req := pending.value;
      pending := None;
      var plain := UnansweredUserMessages(session.history, lastPrompt, lastCarried);
      UnansweredAreUsers(session.history, lastPrompt, lastCarried);
      var before, after := SplitUnanswered(plain, req.requestedAt);
      req := req.(carried := before + req.carried + after);
      lastPrompt := req.prompt;
      lastCarried := KeysOf(req.carried);
      ok := true;
    }
  }

  lemma KeysSnoc(msgs: seq<Message>, m: Message)
    ensures Keys(msgs + [m]) == Keys(msgs) + {CarryKey(m)}
  {
    var all := msgs + [m];
    assert all[|msgs|] == m;
    forall k | k in Keys(msgs) ensures k in Keys(all) {
      var i :| 0 <= i < |msgs| && CarryKey(msgs[i]) == k;
      assert all[i] == msgs[i];
    }
  }

  lemma {:induction false} UnansweredAreUsers(msgs: seq<Message>, skip: string, carried: set<Key>)
    ensures forall i | 0 <= i < |Unanswered(msgs, skip, carried)| :: Plain(Unanswered(msgs, skip, carried)[i], skip, carried)
  {
    if |msgs| > 0 {
      UnansweredAreUsers(msgs[..|msgs| - 1], skip, carried);
    }
  }

  // ---- what is carried out of history ----

  /** A message of history is carried exactly when it is plain and no answer comes after it. */
  lemma {:induction false} UnansweredExactly(msgs: seq<Message>, skip: string, carried: set<Key>, m: Message)
    ensures m in Unanswered(msgs, skip, carried) <==>
            exists i :: 0 <= i < |msgs| && msgs[i] == m && Plain(m, skip, carried) && NoAnswerAfter(msgs, i)
  {
    if |msgs| > 0 {
      var front, last := msgs[..|msgs| - 1], msgs[|msgs| - 1];
      UnansweredExactly(front, skip, carried, m);
      if Answers(last) {
        forall i | 0 <= i < |msgs| && Plain(msgs[i], skip, carried) ensures !NoAnswerAfter(msgs, i) {
          assert i < |msgs| - 1;
        }
      } else {
        forall i | 0 <= i < |front| ensures NoAnswerAfter(msgs, i) <==> NoAnswerAfter(front, i) {
          assert forall j | i < j < |front| :: front[j] == msgs[j];
        }
        if m in Unanswered(front, skip, carried) {
          var i :| 0 <= i < |front| && front[i] == m && Plain(m, skip, carried) && NoAnswerAfter(front, i);
          assert msgs[i] == m && NoAnswerAfter(msgs, i);
        }
        if m == last && Plain(m, skip, carried) {
          assert msgs[|msgs| - 1] == m && NoAnswerAfter(msgs, |msgs| - 1);
        }
        if i :| 0 <= i < |msgs| && msgs[i] == m && Plain(m, skip, carried) && NoAnswerAfter(msgs, i) {
          if i < |front| {
            assert front[i] == m && NoAnswerAfter(front, i);
          }
        }
      }
    }
  }

  /** A blank character is one of the six ASCII spaces. */
  lemma SpacesAre(c: char)
    ensures IsSpace(c) <==> c in {' ', '\t', '\n', '\r', 11 as char, 12 as char}
  {
  }

  /** Neither an aborted nor a failed nor a blank assistant message answers anything, and nothing else does but an
      assistant's. */
  lemma AnswersExactly(m: Message)
    ensures Answers(m) <==>
            m.Assistant? && m.stop != Aborted && m.stop != Errored && exists i :: 0 <= i < |m.text| && !IsSpace(m.text[i])
  {
  }

  /** The same as UnansweredExactly, down to the fields: a user message that no such answer follows, unless its text begins
      with the machinery mark or repeats the last prompt, or its content and time are those of a message carried before. */
  lemma UnansweredInFields(msgs: seq<Message>, skip: string, carried: set<Key>, m: Message)
    ensures m in Unanswered(msgs, skip, carried) <==>
            && m.User? && UserKey(m.content, m.timestamp) !in carried
            && (m.content.Text? ==> !("[SYS_EXT]" <= m.content.s) && (skip == "" || m.content.s != skip))
            && exists i :: 0 <= i < |msgs| && msgs[i] == m && NoAnswerAfter(msgs, i)
  {
    UnansweredExactly(msgs, skip, carried, m);
    if i :| 0 <= i < |msgs| && msgs[i] == m && NoAnswerAfter(msgs, i) {
      assert Plain(m, skip, carried) ==> msgs[i] == m && Plain(m, skip, carried) && NoAnswerAfter(msgs, i);
    }
  }

  ghost predicate NoAnswerAfter(msgs: seq<Message>, i: int) {
    forall j | i < j < |msgs| && 0 <= j :: !Answers(msgs[j])
  }

  lemma {:induction false} SplitExactly(msgs: seq<Message>, at: int, m: Message)
    requires m in msgs && m.User?
    ensures if m.timestamp <= at then WithCarriedNote(m) in Older(msgs, at) else m in Newer(msgs, at)
  {
    if |msgs| > 0 && m != msgs[|msgs| - 1] {
      assert msgs == msgs[..|msgs| - 1] + [msgs[|msgs| - 1]];
      SplitExactly(msgs[..|msgs| - 1], at, m);
    }
  }

  /** Positions of a list, in their order. */
  ghost predicate Positions(ps: seq<nat>, n: nat) {
    (forall k | 0 <= k < |ps| :: ps[k] < n) && forall k, l | 0 <= k < l < |ps| :: ps[k] < ps[l]
  }

  ghost predicate Noted(out: seq<Message>, msgs: seq<Message>, ps: seq<nat>)
    requires Positions(ps, |msgs|)
  {
    |out| == |ps| && forall k | 0 <= k < |ps| :: msgs[ps[k]].User? && out[k] == WithCarriedNote(msgs[ps[k]])
  }

  ghost predicate Picked(out: seq<Message>, msgs: seq<Message>, ps: seq<nat>)
    requires Positions(ps, |msgs|)
  {
    |out| == |ps| && forall k | 0 <= k < |ps| :: out[k] == msgs[ps[k]]
  }

  lemma PositionsSnoc(ps: seq<nat>, n: nat)
    requires Positions(ps, n)
    ensures Positions(ps, n + 1) && Positions(ps + [n], n + 1)
  {
  }

  lemma NotedSnoc(out: seq<Message>, front: seq<Message>, ps: seq<nat>, m: Message)
    requires Positions(ps, |front|) && Noted(out, front, ps) && m.User?
    ensures Positions(ps, |front + [m]|) && Positions(ps + [|front|], |front + [m]|)
    ensures Noted(out, front + [m], ps) && Noted(out + [WithCarriedNote(m)], front + [m], ps + [|front|])
  {
    PositionsSnoc(ps, |front|);
  }

  lemma PickedSnoc(out: seq<Message>, front: seq<Message>, ps: seq<nat>, m: Message)
    requires Positions(ps, |front|) && Picked(out, front, ps)
    ensures Positions(ps, |front + [m]|) && Positions(ps + [|front|], |front + [m]|)
    ensures Picked(out, front + [m], ps) && Picked(out + [m], front + [m], ps + [|front|])
  {
    PositionsSnoc(ps, |front|);
  }

  /** Where a message goes. */
  ghost predicate Grouped(msgs: seq<Message>, at: int, older: seq<nat>, newer: seq<nat>) {
    forall i: nat | i < |msgs| && msgs[i].User? ::
      (i in older <==> msgs[i].timestamp <= at) && (i in newer <==> msgs[i].timestamp > at)
  }

  /** The split by the time of the request adds, loses, repeats and reorders nothing, however the messages are timed: the
      positions fall into two groups, each carried in its order, the older ones with the note. */
  lemma {:induction false} SplitKeepsOrder(msgs: seq<Message>, at: int) returns (older: seq<nat>, newer: seq<nat>)
    requires forall i | 0 <= i < |msgs| :: msgs[i].User?
    ensures Positions(older, |msgs|) && Positions(newer, |msgs|) && Grouped(msgs, at, older, newer)
    ensures Noted(Older(msgs, at), msgs, older) && Picked(Newer(msgs, at), msgs, newer)
  {
    older, newer := [], [];
    if |msgs| > 0 {
      var n := |msgs| - 1;
      var front, last := msgs[..n], msgs[n];
      older, newer := SplitKeepsOrder(front, at);
      NotedSnoc(Older(front, at), front, older, last);
      PickedSnoc(Newer(front, at), front, newer, last);
      assert front + [last] == msgs;
      assert Older(front, at) + [] == Older(front, at) && Newer(front, at) + [] == Newer(front, at);
      if last.timestamp <= at {
        older := older + [n];
      } else {
        newer := newer + [n];
      }
    }
  }

  /** Every unanswered message is carried: with the note and before the queued batch when it is older than the request,
      as it is and after the batch when it arrived later; and it is dropped only as machinery or as a repetition of
      a message of the last handoff. */
  lemma UnansweredIsCarried(st: Snapshot, i: nat)
    requires st.pending.Some? && i < |st.history| && st.history[i].User? && NoAnswerAfter(st.history, i)
    ensures var m, req := st.history[i], st.pending.value;
            var plain := Unanswered(st.history, st.lastPrompt, st.lastCarried);
            && Carried(st) == Older(plain, req.requestedAt) + req.carried + Newer(plain, req.requestedAt)
            && (Plain(m, st.lastPrompt, st.lastCarried) <==> m in plain)
            && (Plain(m, st.lastPrompt, st.lastCarried) ==>
                  if m.timestamp <= req.requestedAt then WithCarriedNote(m) in Older(plain, req.requestedAt)
                  else m in Newer(plain, req.requestedAt))
            && (Plain(m, st.lastPrompt, st.lastCarried) ==>
                  exists c :: c in Carried(st) && (c == m || Behind(m, c)))
  {
    var m := st.history[i];
    NoteOnce(m);
    UnansweredExactly(st.history, st.lastPrompt, st.lastCarried, m);
    if Plain(m, st.lastPrompt, st.lastCarried) {
      SplitExactly(Unanswered(st.history, st.lastPrompt, st.lastCarried), st.pending.value.requestedAt, m);
      var c := if m.timestamp <= st.pending.value.requestedAt then WithCarriedNote(m) else m;
      assert c in Carried(st) && (c == m || Behind(m, c));
    }
  }

  /** The content of `noted` is that of `m` with the note in front, or that of `m` if the note stood there already. */
  ghost predicate Behind(m: Message, noted: Message) {
    && m.User? && noted.User? && noted.timestamp == m.timestamp
    && match m.content
       case Text(s) =>
         noted.content.Text? && NOTE <= noted.content.s
         && (noted.content.s == s || (!(NOTE <= s) && noted.content.s[|NOTE|..] == s))
       case Blocks(bs) =>
         noted.content.Blocks? && |noted.content.blocks| > 0 && noted.content.blocks[0] == TextBlock(NOTE)
         && (noted.content.blocks == bs
             || ((|bs| == 0 || bs[0] != TextBlock(NOTE)) && noted.content.blocks[1..] == bs))
  }

  /** The note changes nothing but the front of the content - all the user wrote is still behind it - and is put there
      once. */
  lemma NoteOnce(m: Message)
    requires m.User?
    ensures WithCarriedNote(m).User? && WithCarriedNote(m).timestamp == m.timestamp
    ensures WithCarriedNote(WithCarriedNote(m)) == WithCarriedNote(m)
    ensures Behind(m, WithCarriedNote(m))
  {
    match m.content
    case Text(s) => assert NOTE <= NOTE + s;
    case Blocks(bs) => assert ([TextBlock(NOTE)] + bs)[0] == TextBlock(NOTE);
  }

  /** A request counts from its own time and carries what is queued then, behind what a superseded request had: of the
      unanswered messages those no newer go noted before that, the others after it as they are. */
  lemma RequestCarries(st: Snapshot, prompt: string, prepend: string, now: int, m: Message)
      returns (before: seq<Message>, after: seq<Message>)
    requires m in Unanswered(st.history, st.lastPrompt, st.lastCarried)
    ensures var t := Restarted(st, prompt, prepend, now);
            && t.pending.Some? && t.pending.value.prompt == prompt && t.pending.value.prepend == prepend
            && t.steer == [] && t.followUp == [] && t.history == st.history
            && Carried(t) == before + (PendingQueue(st) + (st.steer + st.followUp)) + after
            && m.User? && if m.timestamp <= now then WithCarriedNote(m) in before else m in after
  {
    var plain := Unanswered(st.history, st.lastPrompt, st.lastCarried);
    UnansweredExactly(st.history, st.lastPrompt, st.lastCarried, m);
    SplitExactly(plain, now, m);
    before, after := Older(plain, now), Newer(plain, now);
  }

  /** After a handoff neither its prompt nor what it carried is ever taken out of history. */
  lemma HandoffIsNotCarried(st: Snapshot, history: seq<Message>, m: Message)
    requires st.pending.Some? && m.User?
    requires m in Carried(st) || (m.content == Text(st.pending.value.prompt) && st.pending.value.prompt != "")
    ensures m !in Unanswered(history, Taken(st).lastPrompt, Taken(st).lastCarried)
  {
    UnansweredInFields(history, Taken(st).lastPrompt, Taken(st).lastCarried, m);
    if m in Carried(st) {
      var i :| 0 <= i < |Carried(st)| && Carried(st)[i] == m;
      KeyIn(Carried(st), i);
    }
  }

  // ---- runs ----

  /** What happens around the bridge. `Consume` is TakePendingRestart and what the mode does with it: the old history
      is gone and the carried messages, then whatever was queued meanwhile, are queued as follow-ups. In `ConsumeFails` no
      new session can be created: the mode has taken the same messages, shows an error and keeps none of them. */
  datatype Event =
    | Enqueue(m: Message, steering: bool)
    | Append(m: Message)
    | Drain(steering: bool)
    | Restart(prompt: string, prepend: string, now: int)
    | Consume
    | ConsumeFails

  /** Messages a consumption got off the queues, and whether they reached a new session. */
  datatype Batch = Batch(msgs: seq<Message>, arrived: bool)

  /** The record of a run: messages taken off the queues, what became of them, and all keys delivered so far. */
  datatype Log = Log(taken: seq<Message>, batches: seq<Batch>, delivered: set<Key>)

  function AllOf(batches: seq<Batch>): seq<Message> {
    if |batches| == 0 then [] else AllOf(batches[..|batches| - 1]) + batches[|batches| - 1].msgs
  }

  function Arrived(batches: seq<Batch>): seq<Message> {
    if |batches| == 0 then []
    else
      var last := batches[|batches| - 1];
      Arrived(batches[..|batches| - 1]) + if last.arrived then last.msgs else []
  }

  lemma AllOfSnoc(batches: seq<Batch>, b: Batch)
    ensures AllOf(batches + [b]) == AllOf(batches) + b.msgs
  {
    assert (batches + [b])[..|batches|] == batches;
  }

  lemma {:induction false} ArrivedExactly(batches: seq<Batch>)
    ensures |Arrived(batches)| <= |AllOf(batches)|
    ensures Arrived(batches) == AllOf(batches) <==> forall i | 0 <= i < |batches| && !batches[i].arrived :: batches[i].msgs == []
  {
    if |batches| > 0 {
      var n := |batches| - 1;
      var front, last := batches[..n], batches[n];
      ArrivedExactly(front);
      if last.arrived {
        ConcatSame(Arrived(front), AllOf(front), last.msgs);
      } else if Arrived(batches) == AllOf(batches) {
        assert |last.msgs| == 0;
        assert AllOf(front) + [] == AllOf(front) && Arrived(front) + [] == Arrived(front);
      } else if last.msgs == [] {
        assert AllOf(front) + [] == AllOf(front) && Arrived(front) + [] == Arrived(front);
      }
      forall i | 0 <= i < n ensures front[i] == batches[i] {
      }
    }
  }

  lemma ConcatSame(a: seq<Message>, b: seq<Message>, c: seq<Message>)
    ensures a + c == b + c <==> a == b
  {
    if a + c == b + c {
      assert |a| == |b|;
      assert (a + c)[..|a|] == a && (b + c)[..|b|] == b;
    }
  }

  datatype Sys = Sys(st: Snapshot, log: Log)

  ghost predicate Known(s: Sys, m: Message) { m.User? && CarryKey(m) in s.log.delivered }

  ghost predicate Next(s: Sys, e: Event, t: Sys) {
    var st := s.st;
    match e
    case Enqueue(m, steering) =>
      !Known(s, m) &&
      t == s.(st := if steering then st.(steer := st.steer + [m]) else st.(followUp := st.followUp + [m]))
    case Append(m) => !Known(s, m) && t == s.(st := st.(history := st.history + [m]))
    case Drain(steering) =>
      if steering then
        st.steer != [] && t == s.(st := st.(steer := st.steer[1..], history := st.history + [st.steer[0]]))
      else
        st.followUp != [] && t == s.(st := st.(followUp := st.followUp[1..], history := st.history + [st.followUp[0]]))
    case Restart(prompt, prepend, now) =>
      t == Sys(Restarted(st, prompt, prepend, now), s.log.(taken := s.log.taken + (st.steer + st.followUp)))
    case Consume =>
      if st.pending.None? then t == s
      else
        t == Sys(Taken(st).(history := [], steer := [], followUp := Carried(st) + (st.steer + st.followUp)),
                 Log(s.log.taken, s.log.batches + [Batch(st.pending.value.carried, true)],
                     s.log.delivered + Keys(Carried(st))))
    case ConsumeFails =>
      if st.pending.None? then t == s
      else
        t == Sys(Taken(st).(steer := [], followUp := []),
                 Log(s.log.taken + (st.steer + st.followUp),
                     s.log.batches + [Batch(st.pending.value.carried + (st.steer + st.followUp), false)], s.log.delivered))
  }

  ghost predicate Init(s: Sys) {
    s.st.pending == None && s.st.lastCarried == {} && s.log == Log([], [], {})
  }

  function PendingQueue(st: Snapshot): seq<Message> {
    if st.pending.Some? then st.pending.value.carried else []
  }

  /** A delivered message that is still around was delivered by the last handoff. */
  ghost predicate Recent(s: Sys, msgs: seq<Message>) {
    forall i | 0 <= i < |msgs| && Known(s, msgs[i]) :: CarryKey(msgs[i]) in s.st.lastCarried
  }

  ghost predicate New(s: Sys, msgs: seq<Message>) {
    forall i | 0 <= i < |msgs| :: !Known(s, msgs[i])
  }

  ghost predicate Account(s: Sys) { s.log.taken == AllOf(s.log.batches) + PendingQueue(s.st) }

  ghost predicate Fresh(s: Sys) {
    && Recent(s, s.st.history) && Recent(s, s.st.steer) && Recent(s, s.st.followUp)
    && (s.st.pending.Some? ==> New(s, s.st.steer) && New(s, s.st.followUp))
  }

  ghost predicate Inv(s: Sys) { Account(s) && Fresh(s) }

  lemma KeyIn(msgs: seq<Message>, i: nat)
    requires i < |msgs|
    ensures CarryKey(msgs[i]) in Keys(msgs)
  {
  }

  lemma NextKeepsAccount(s: Sys, e: Event, t: Sys)
    requires Account(s) && Next(s, e, t)
    ensures Account(t)
  {
    var queued, pending := s.st.steer + s.st.followUp, PendingQueue(s.st);
    if e.Restart? {
      assert AllOf(s.log.batches) + pending + queued == AllOf(s.log.batches) + (pending + queued);
    } else if (e.Consume? || e.ConsumeFails?) && s.st.pending.Some? {
      AllOfSnoc(s.log.batches, t.log.batches[|s.log.batches|]);
      assert AllOf(s.log.batches) + pending + queued == AllOf(s.log.batches) + (pending + queued);
      assert AllOf(t.log.batches) + [] == AllOf(t.log.batches);
    }
  }

  lemma ConsumeKeepsFresh(s: Sys, t: Sys)
    requires Fresh(s) && Next(s, Consume, t) && s.st.pending.Some?
    ensures Fresh(t)
  {
    var carried := Carried(s.st);
    forall i | 0 <= i < |t.st.followUp| && Known(t, t.st.followUp[i])
      ensures CarryKey(t.st.followUp[i]) in t.st.lastCarried
    {
      if i < |carried| {
        KeyIn(carried, i);
      } else {
        var m := (s.st.steer + s.st.followUp)[i - |carried|];
        assert t.st.followUp[i] == m;
        assert !Known(s, m);
      }
    }
  }

  lemma QueueStepKeepsFresh(s: Sys, e: Event, t: Sys)
    requires Fresh(s) && Next(s, e, t) && (e.Enqueue? || e.Append? || e.Drain?)
    ensures Fresh(t)
  {
    assert t.log == s.log && t.st.lastCarried == s.st.lastCarried && t.st.pending == s.st.pending;
    assert forall m :: Known(t, m) <==> Known(s, m);
  }

  /** What a failing consumption must find: every delivered message that history still shows is among those it was to
      carry. */
  ghost predicate NothingShown(s: Sys)
    requires s.st.pending.Some?
  {
    forall i | 0 <= i < |s.st.history| && Known(s, s.st.history[i]) :: CarryKey(s.st.history[i]) in Keys(Carried(s.st))
  }

  lemma FailureKeepsFreshExactly(s: Sys, t: Sys)
    requires Next(s, ConsumeFails, t) && s.st.pending.Some?
    ensures Fresh(t) <==> NothingShown(s)
  {
    assert t.st.history == s.st.history && t.st.lastCarried == Keys(Carried(s.st));
    assert forall m :: Known(t, m) <==> Known(s, m);
  }

  ghost predicate Harmless(s: Sys, e: Event) { e.ConsumeFails? && s.st.pending.Some? ==> NothingShown(s) }

  lemma NextKeepsInv(s: Sys, e: Event, t: Sys)
    requires Inv(s) && Next(s, e, t) && Harmless(s, e)
    ensures Inv(t)
  {
    NextKeepsAccount(s, e, t);
    match e
    case Consume =>
      if s.st.pending.Some? {
        ConsumeKeepsFresh(s, t);
      }
    case ConsumeFails =>
      if s.st.pending.Some? {
        FailureKeepsFreshExactly(s, t);
      }
    case Restart(_, _, _) =>
    case _ => QueueStepKeepsFresh(s, e, t);
  }

  ghost predicate Run(states: seq<Sys>, events: seq<Event>) {
    && |states| == |events| + 1 && Init(states[0])
    && forall i | 0 <= i < |events| :: Next(states[i], events[i], states[i + 1])
  }

  ghost predicate HarmlessRun(states: seq<Sys>, events: seq<Event>)
    requires |states| == |events| + 1
  {
    forall i | 0 <= i < |events| :: Harmless(states[i], events[i])
  }

  lemma {:induction false} ReachedKeepsAccount(states: seq<Sys>, events: seq<Event>, i: nat)
    requires Run(states, events) && i < |states|
    ensures Account(states[i])
  {
    if i > 0 {
      ReachedKeepsAccount(states, events, i - 1);
      assert Next(states[i - 1], events[i - 1], states[i - 1 + 1]);
      NextKeepsAccount(states[i - 1], events[i - 1], states[i]);
    }
  }

  lemma {:induction false} ReachedKeepsInv(states: seq<Sys>, events: seq<Event>, i: nat)
    requires Run(states, events) && HarmlessRun(states, events) && i < |states|
    ensures Inv(states[i])
  {
    if i > 0 {
      ReachedKeepsInv(states, events, i - 1);
      assert Next(states[i - 1], events[i - 1], states[i - 1 + 1]);
      NextKeepsInv(states[i - 1], events[i - 1], states[i]);
    }
  }

  lemma RunKeepsInv(states: seq<Sys>, events: seq<Event>)
    requires Run(states, events) && HarmlessRun(states, events)
    ensures forall i | 0 <= i < |states| :: Inv(states[i])
  {
    forall i | 0 <= i < |states| ensures Inv(states[i]) {
      ReachedKeepsInv(states, events, i);
    }
  }

  /** Over any run, with requests superseding one another and consumptions failing: what was taken off the queues is what
      was consumed, once and in that order, followed by what the pending request still holds. With none pending it has all
      arrived in a new session if and only if no failing consumption had anything. */
  lemma QueueIsConserved(states: seq<Sys>, events: seq<Event>, i: nat)
    requires Run(states, events) && i < |states|
    ensures var s := states[i]; s.log.taken == AllOf(s.log.batches) + PendingQueue(s.st)
    ensures var s := states[i];
            s.st.pending == None ==>
              (Arrived(s.log.batches) == s.log.taken <==>
               forall k | 0 <= k < |s.log.batches| && !s.log.batches[k].arrived :: s.log.batches[k].msgs == [])
  {
    ReachedKeepsAccount(states, events, i);
    ArrivedExactly(states[i].log.batches);
    assert AllOf(states[i].log.batches) + [] == AllOf(states[i].log.batches);
  }

  /** A message delivered by one handoff is never carried out of history by a later one. */
  lemma NothingIsReplayed(states: seq<Sys>, events: seq<Event>, i: nat, m: Message)
    requires Run(states, events) && HarmlessRun(states, events) && i < |states| && states[i].st.pending.Some?
    requires m in Unanswered(states[i].st.history, states[i].st.lastPrompt, states[i].st.lastCarried)
    ensures CarryKey(m) !in states[i].log.delivered
  {
    RunKeepsInv(states, events);
    var st := states[i].st;
    UnansweredExactly(st.history, st.lastPrompt, st.lastCarried, m);
    var k :| 0 <= k < |st.history| && st.history[k] == m && Plain(m, st.lastPrompt, st.lastCarried);
    assert Recent(states[i], st.history);
  }

  // ---- when the new session cannot be created ----

  /** The next handoff after a failing one carries a delivered message out of history if and only if history shows, after
      its last answer, a delivered message that is neither machinery nor among those the failing one was to carry. */
  lemma FailureReplaysExactly(s: Sys, t: Sys)
    requires s.st.pending.Some? && Next(s, ConsumeFails, t)
    ensures (exists m :: m in Unanswered(t.st.history, t.st.lastPrompt, t.st.lastCarried) && Known(t, m)) <==>
            (exists i :: 0 <= i < |s.st.history| && Known(s, s.st.history[i]) && NoAnswerAfter(s.st.history, i)
                         && Plain(s.st.history[i], s.st.pending.value.prompt, Keys(Carried(s.st))))
  {
    var out := Unanswered(t.st.history, t.st.lastPrompt, t.st.lastCarried);
    if m :| m in out && Known(t, m) {
      UnansweredExactly(t.st.history, t.st.lastPrompt, t.st.lastCarried, m);
    }
    if i :| 0 <= i < |s.st.history| && Known(s, s.st.history[i]) && NoAnswerAfter(s.st.history, i)
            && Plain(s.st.history[i], s.st.pending.value.prompt, Keys(Carried(s.st))) {
      UnansweredExactly(t.st.history, t.st.lastPrompt, t.st.lastCarried, s.st.history[i]);
    }
  }

  /** And a message that came after the request, though it never arrived, is taken for delivered: the next handoff leaves
      it behind. */
  lemma FailureForgetsNewer(s: Sys, t: Sys, m: Message)
    requires s.st.pending.Some? && Next(s, ConsumeFails, t) && m.User? && m.timestamp > s.st.pending.value.requestedAt
    requires m in Unanswered(s.st.history, s.st.lastPrompt, s.st.lastCarried)
    ensures m !in Unanswered(t.st.history, t.st.lastPrompt, t.st.lastCarried)
  {
    var plain := Unanswered(s.st.history, s.st.lastPrompt, s.st.lastCarried);
    var carried := Carried(s.st);
    SplitExactly(plain, s.st.pending.value.requestedAt, m);
    assert m in carried;
    var i :| 0 <= i < |carried| && carried[i] == m;
    KeyIn(carried, i);
    UnansweredExactly(t.st.history, t.st.lastPrompt, t.st.lastCarried, m);
  }

  const FIRST := User(Blocks([]), 1)

  /** A run in which a message is delivered twice: one handoff carries it, the next fails and forgets that, the third
      carries it again. */
  ghost function FailedHandoff(i: nat): Sys {
    var start := Snapshot(None, "", {}, [], [], []);
    var noted := WithCarriedNote(FIRST);
    var key := CarryKey(noted);
    var after := Log([], [Batch([], true)], {key});
    var failed := Log([], [Batch([], true), Batch([], false)], {key});
    match i
    case 0 => Sys(start, Log([], [], {}))
    case 1 => Sys(start.(history := [FIRST]), Log([], [], {}))
    case 2 => Sys(start.(history := [FIRST], pending := Some(Request("a", "", [], 2))), Log([], [], {}))
    case 3 => Sys(Snapshot(None, "a", {key}, [], [noted], []), after)
    case 4 => Sys(Snapshot(None, "a", {key}, [], [], [noted]), after)
    case 5 => Sys(Snapshot(Some(Request("b", "", [], 3)), "a", {key}, [], [], [noted]), after)
    case 6 => Sys(Snapshot(None, "b", {}, [], [], [noted]), failed)
    case _ => Sys(Snapshot(Some(Request("c", "", [], 4)), "b", {}, [], [], [noted]), failed)
  }

  ghost function FailedHandoffEvent(i: nat): Event {
    match i
    case 0 => Append(FIRST)
    case 1 => Restart("a", "", 2)
    case 2 => Consume
    case 3 => Drain(false)
    case 4 => Restart("b", "", 3)
    case 5 => ConsumeFails
    case _ => Restart("c", "", 4)
  }

  lemma OneUnanswered(m: Message, skip: string, carried: set<Key>)
    requires !Answers(m)
    ensures Unanswered([m], skip, carried) == if Plain(m, skip, carried) then [m] else []
  {
    assert [m][..0] == [];
  }

  lemma OneSplit(m: Message, at: int)
    requires m.User? && m.timestamp <= at
    ensures Older([m], at) == [WithCarriedNote(m)] && Newer([m], at) == []
  {
    assert [m][..0] == [];
  }

  lemma KeysOfOne(m: Message)
    ensures Keys([m]) == {CarryKey(m)} && Keys([]) == {}
  {
    KeysSnoc([], m);
    assert [] + [m] == [m];
  }

  lemma NotedIsPlain()
    ensures var noted := WithCarriedNote(FIRST);
            && Plain(FIRST, "", {}) && Plain(noted, "b", {}) && !Plain(noted, "a", {CarryKey(noted)})
            && noted.User? && noted.timestamp == 1
  {
  }

  lemma NothingQueued(st: Snapshot, prompt: string, now: int)
    requires st.pending == None && st.steer == [] && st.followUp == []
    ensures Restarted(st, prompt, "", now) == st.(pending := Some(Request(prompt, "", [], now)))
  {
    var none: seq<Message> := [];
    assert none + (none + none) == none;
  }

  lemma OneCarried(st: Snapshot, m: Message)
    requires st.pending.Some? && st.pending.value.carried == [] && st.history == [m] && m.User?
    requires m.timestamp <= st.pending.value.requestedAt
    ensures Carried(st) == if Plain(m, st.lastPrompt, st.lastCarried) then [WithCarriedNote(m)] else []
  {
    OneUnanswered(m, st.lastPrompt, st.lastCarried);
    OneSplit(m, st.pending.value.requestedAt);
  }

  lemma FirstIsCarried()
    ensures Carried(FailedHandoff(2).st) == [WithCarriedNote(FIRST)]
  {
    NotedIsPlain();
    OneCarried(FailedHandoff(2).st, FIRST);
  }

  lemma NotedIsNotCarried()
    ensures Carried(FailedHandoff(5).st) == [] && Keys([]) == {}
  {
    NotedIsPlain();
    KeysOfOne(FIRST);
    OneCarried(FailedHandoff(5).st, WithCarriedNote(FIRST));
  }

  lemma FirstStep()
    ensures Next(FailedHandoff(0), Append(FIRST), FailedHandoff(1))
  {
    var none: seq<Message> := [];
    assert none + [FIRST] == [FIRST];
  }

  lemma CarryStep()
    ensures Next(FailedHandoff(2), Consume, FailedHandoff(3))
  {
    var none: seq<Message> := [];
    FirstIsCarried();
    KeysOfOne(WithCarriedNote(FIRST));
    assert [WithCarriedNote(FIRST)] + (none + none) == [WithCarriedNote(FIRST)];
  }

  lemma DrainStep()
    ensures Next(FailedHandoff(3), Drain(false), FailedHandoff(4))
  {
    var none: seq<Message> := [];
    assert none + [WithCarriedNote(FIRST)] == [WithCarriedNote(FIRST)];
  }

  lemma FailStep()
    ensures Next(FailedHandoff(5), ConsumeFails, FailedHandoff(6))
  {
    var none: seq<Message> := [];
    NotedIsNotCarried();
    assert none + (none + none) == none;
  }

  lemma FailedHandoffStep(i: nat)
    requires i < 7
    ensures Next(FailedHandoff(i), FailedHandoffEvent(i), FailedHandoff(i + 1))
  {
    match i {
      case 0 => FirstStep();
      case 1 => NothingQueued(FailedHandoff(1).st, "a", 2);
      case 2 => CarryStep();
      case 3 => DrainStep();
      case 4 => NothingQueued(FailedHandoff(4).st, "b", 3);
      case 5 => FailStep();
      case _ => NothingQueued(FailedHandoff(6).st, "c", 4);
    }
  }

  lemma FailedHandoffReplays()
    ensures Run(seq(8, i requires 0 <= i < 8 => FailedHandoff(i)), seq(7, i requires 0 <= i < 7 => FailedHandoffEvent(i)))
    ensures var s := FailedHandoff(7);
            && s.st.pending.Some? && Unanswered(s.st.history, s.st.lastPrompt, s.st.lastCarried) == [WithCarriedNote(FIRST)]
            && CarryKey(WithCarriedNote(FIRST)) in s.log.delivered
  {
    forall i: nat | i < 7 ensures Next(FailedHandoff(i), FailedHandoffEvent(i), FailedHandoff(i + 1)) {
      FailedHandoffStep(i);
    }
    NotedIsPlain();
    OneUnanswered(WithCarriedNote(FIRST), "b", {});
  }
}
