/** The activity-aware deadline of CallHook (pkg/extension/bridge.go): a timer that is re-armed as long as the
    extension has said something within the timeout. */
module CallDeadline {

  /** What can happen to a waiting call, stamped with the clock. `Activity` is any message from the extension, a
      keep-alive tick, or another call starting; `Fire` is the timer. */
  datatype Event =
    | Activity(at: int)
    | Fire(at: int)
    | Response(at: int)
    | Cancel(at: int)

  datatype Outcome = StillWaiting | Answered | Cancelled | TimedOut(at: int)

  /** The loop's variables, and the re-arms so far with their delays. */
  datatype Wait = Wait(lastActivity: int, fireAt: int, armed: bool, outcome: Outcome, rearms: seq<int>)

  /** A non-positive timeout arms no timer. */
  function Begin(start: int, timeout: int): Wait {
    Wait(start, start + timeout, timeout > 0, StillWaiting, [])
  }

  function StepWait(w: Wait, timeout: int, e: Event): Wait {
    if !w.outcome.StillWaiting? then w
    else
      match e
      case Activity(at) => w.(lastActivity := at)
      case Response(_) => w.(outcome := Answered)
      case Cancel(_) => w.(outcome := Cancelled)
      case Fire(at) =>
        if !w.armed then w
        else if at - w.lastActivity < timeout then
          w.(fireAt := at + (timeout - (at - w.lastActivity)), rearms := w.rearms + [timeout - (at - w.lastActivity)])
        else w.(outcome := TimedOut(at))
  }

  function Waited(start: int, timeout: int, events: seq<Event>): Wait {
    if |events| == 0 then Begin(start, timeout)
    else StepWait(Waited(start, timeout, events[..|events| - 1]), timeout, events[|events| - 1])
  }

  /** A history that a monotone clock and a timer can produce: times do not go back, and the timer fires no
      earlier than it is set for. */
  ghost predicate Possible(start: int, timeout: int, events: seq<Event>) {
    && (forall i | 0 <= i < |events| :: start <= events[i].at)
    && (forall i, j | 0 <= i < j < |events| :: events[i].at <= events[j].at)
    && (forall i | 0 <= i < |events| && events[i].Fire? :: Waited(start, timeout, events[..i]).fireAt <= events[i].at)
  }

  function LastActivity(start: int, events: seq<Event>): int {
    if |events| == 0 then start
    else if events[|events| - 1].Activity? then events[|events| - 1].at
    else LastActivity(start, events[..|events| - 1])
  }

  function Activities(events: seq<Event>): nat {
    if |events| == 0 then 0
    else Activities(events[..|events| - 1]) + if events[|events| - 1].Activity? then 1 else 0
  }

  predicate Delays(rearms: seq<int>, timeout: int) {
    forall i | 0 <= i < |rearms| :: 0 < rearms[i] <= timeout
  }

  /** The select loop of CallHook, driven by a history. */
  method AwaitResponse(start: int, timeout: int, events: seq<Event>) returns (w: Wait)
    ensures w == Waited(start, timeout, events)
  {
    var lastActivity, fireAt := start, start + timeout;
    var outcome, rearms: seq<int> := StillWaiting, [];
    for i := 0 to |events|
      invariant Waited(start, timeout, events[..i]) == Wait(lastActivity, fireAt, timeout > 0, outcome, rearms)
    {
      assert events[..i + 1][..i] == events[..i];
      if outcome != StillWaiting {
        continue;
      }
      match events[i] {
        case Activity(at) => lastActivity := at;
        case Response(_) => outcome := Answered;
        case Cancel(_) => outcome := Cancelled;
        case Fire(at) =>
          if timeout > 0 {
            var since := at - lastActivity;
            if since < timeout {
              fireAt, rearms := at + (timeout - since), rearms + [timeout - since];
            } else {
              outcome := TimedOut(at);
            }
          }
      }
    }
    assert events[..|events|] == events;
    w := Wait(lastActivity, fireAt, timeout > 0, outcome, rearms);
  }

  /** While the call waits: the loop knows the latest activity, the timer is never set beyond it plus the timeout,
      every re-arm was for a positive delay of at most the timeout, and each one used up an activity of its own. */
  ghost predicate Good(start: int, timeout: int, events: seq<Event>, w: Wait) {
    && Delays(w.rearms, timeout)
    && |w.rearms| <= Activities(events)
    && w.armed
    && (w.outcome.StillWaiting? ==>
          && w.lastActivity == LastActivity(start, events)
          && w.lastActivity >= start
          && w.fireAt <= w.lastActivity + timeout
          && (w.fireAt < w.lastActivity + timeout ==> |w.rearms| < Activities(events))
          && (|events| > 0 ==> w.lastActivity <= events[|events| - 1].at))
  }

  lemma PossiblePrefix(start: int, timeout: int, events: seq<Event>)
    requires |events| > 0 && Possible(start, timeout, events)
    ensures Possible(start, timeout, events[..|events| - 1])
  {
    var front := events[..|events| - 1];
    forall i | 0 <= i < |front| && front[i].Fire? ensures Waited(start, timeout, front[..i]).fireAt <= front[i].at {
      assert front[..i] == events[..i];
      assert events[i].Fire?;
    }
  }

  lemma {:induction false} WaitIsGood(start: int, timeout: int, events: seq<Event>)
    requires timeout > 0 && Possible(start, timeout, events)
    ensures Good(start, timeout, events, Waited(start, timeout, events))
  {
    if |events| > 0 {
      var front, e := events[..|events| - 1], events[|events| - 1];
      PossiblePrefix(start, timeout, events);
      WaitIsGood(start, timeout, front);
      var w := Waited(start, timeout, front);
      assert |front| > 0 ==> front[|front| - 1].at <= e.at;
    }
  }

  /** A timeout is reported only when the extension has been silent for at least the timeout. */
  lemma {:induction false} TimeoutMeansSilence(start: int, timeout: int, events: seq<Event>)
    requires timeout > 0 && Possible(start, timeout, events) && Waited(start, timeout, events).outcome.TimedOut?
    ensures var at := Waited(start, timeout, events).outcome.at;
            exists n :: 0 <= n < |events| && events[n] == Fire(at) && at - LastActivity(start, events[..n]) >= timeout
  {
    var front, e := events[..|events| - 1], events[|events| - 1];
    PossiblePrefix(start, timeout, events);
    WaitIsGood(start, timeout, front);
    if Waited(start, timeout, front).outcome.TimedOut? {
      TimeoutMeansSilence(start, timeout, front);
      var at := Waited(start, timeout, events).outcome.at;
      var n :| 0 <= n < |front| && front[n] == Fire(at) && at - LastActivity(start, front[..n]) >= timeout;
      assert events[n] == Fire(at) && events[..n] == front[..n];
    } else {
      assert events[|events| - 1] == Fire(e.at) && events[..|events| - 1] == front;
    }
  }

  /** Every re-arm delay lies in (0, timeout], and re-arms never outnumber activity updates: under finite activity
      the wait loop goes round finitely often. */
  lemma RearmsAreBounded(start: int, timeout: int, events: seq<Event>)
    requires timeout > 0 && Possible(start, timeout, events)
    ensures var w := Waited(start, timeout, events);
            Delays(w.rearms, timeout) && |w.rearms| <= Activities(events)
  {
    WaitIsGood(start, timeout, events);
  }

  /** And a silent extension is not waited for beyond the timer: the first fire after the timeout has passed in
      silence ends the wait. */
  lemma SilenceEndsTheWait(start: int, timeout: int, events: seq<Event>, at: int)
    requires timeout > 0 && Possible(start, timeout, events) && Waited(start, timeout, events).outcome.StillWaiting?
    ensures Waited(start, timeout, events).fireAt <= LastActivity(start, events) + timeout
    ensures Waited(start, timeout, events + [Fire(at)]).outcome ==
            if at >= LastActivity(start, events) + timeout then TimedOut(at) else StillWaiting
  {
    WaitIsGood(start, timeout, events);
    assert (events + [Fire(at)])[..|events|] == events;
  }

  /** A wait is ended by the first event that ends it, whatever the timeout: a response answers it and a cancellation
      cancels it, as long as it was still waiting; and it ends in no other way. */
  lemma {:induction false} EndedBy(start: int, timeout: int, events: seq<Event>, n: nat)
    requires n < |events| && Waited(start, timeout, events[..n]).outcome.StillWaiting?
    ensures events[n].Response? ==> Waited(start, timeout, events).outcome == Answered
    ensures events[n].Cancel? ==> Waited(start, timeout, events).outcome == Cancelled
    decreases |events|
  {
    if n < |events| - 1 {
      var front := events[..|events| - 1];
      assert front[..n] == events[..n];
      EndedBy(start, timeout, front, n);
    } else {
      assert events[..n] == events[..|events| - 1];
    }
  }

  lemma {:induction false} EndedOnlyBy(start: int, timeout: int, events: seq<Event>)
    requires !Waited(start, timeout, events).outcome.StillWaiting?
    ensures exists n :: 0 <= n < |events| && Waited(start, timeout, events[..n]).outcome.StillWaiting?
                        && match Waited(start, timeout, events).outcome
                           case Answered => events[n].Response?
                           case Cancelled => events[n].Cancel?
                           case TimedOut(at) => events[n] == Fire(at)
                           case StillWaiting => false
  {
    var front := events[..|events| - 1];
    if Waited(start, timeout, front).outcome.StillWaiting? {
      assert Waited(start, timeout, events[..|events| - 1]).outcome.StillWaiting?;
    } else {
      EndedOnlyBy(start, timeout, front);
      var n :| 0 <= n < |front| && Waited(start, timeout, front[..n]).outcome.StillWaiting?
               && match Waited(start, timeout, front).outcome
                  case Answered => front[n].Response?
                  case Cancelled => front[n].Cancel?
                  case TimedOut(at) => front[n] == Fire(at)
                  case StillWaiting => false;
      assert front[..n] == events[..n] && front[n] == events[n];
    }
  }

  /** A non-positive timeout disables the deadline: only a response or the context ends the call. */
  lemma {:induction false} NoDeadline(start: int, timeout: int, events: seq<Event>)
    requires timeout <= 0
    ensures !Waited(start, timeout, events).outcome.TimedOut? && Waited(start, timeout, events).rearms == []
    ensures !Waited(start, timeout, events).armed
    ensures Waited(start, timeout, events).outcome.StillWaiting? <==>
            forall i | 0 <= i < |events| :: !events[i].Response? && !events[i].Cancel?
  {
    if |events| > 0 {
      NoDeadline(start, timeout, events[..|events| - 1]);
    }
  }
}
