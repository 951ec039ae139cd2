/** The Wait loop: every tick of a 3-second ticker sends one getStatus request for
    the rental and reads the reply, until a reply other than STATUS_WAIT_CODE or the
    context being done ends it. Time and the select statement are abstracted into a
    finite trace of events in the order the loop observes them; when the trace runs
    out before the loop returns, the model says so instead of claiming termination. */
module Polling {
  import opened Errors
  import Text
  import opened Responses
  import opened Requests

  /** What one iteration of the loop's select observes. */
  datatype Event =
    | Tick(reply: Reply)                 // the ticker fired; reply is what the status request returned
    | Cancelled(reason: ContextReason)   // ctx.Done() was ready

  datatype WaitOutcome = Returned(result: Result<string>) | TraceExhausted

  /** The observable summary of a run: how it ended, how many status requests it
      sent and how many events it consumed. */
  datatype WaitRun = WaitRun(outcome: WaitOutcome, requests: nat, consumed: nat)

  const STATUS_WAIT_CODE := "STATUS_WAIT_CODE"

  /** What one iteration does with the event it observed. */
  function Step(event: Event): Poll
  {
    match event
    case Cancelled(reason) => Finished(Err(ContextErr(reason)))
    case Tick(IoFailure(cause)) => Finished(Err(Transport(cause)))
    case Tick(Body(text)) => PollStatus(text)
  }

  /** The requests an iteration sends: one on a tick, none on cancellation. */
  function RequestsOf(event: Event): nat
  {
    if event.Tick? then 1 else 0
  }

  /** The number of ticks among the events. */
  function TickCount(events: seq<Event>): nat
  {
    if |events| == 0 then 0 else RequestsOf(events[0]) + TickCount(events[1..])
  }

  /** The run of the loop over a trace, event by event. */
  function RunWait(events: seq<Event>): (run: WaitRun)
    ensures run.consumed <= |events|
    ensures run.outcome.TraceExhausted? ==> run.consumed == |events|
    decreases |events|
  {
    if |events| == 0 then WaitRun(TraceExhausted, 0, 0)
    else
      match Step(events[0])
      case Finished(result) => WaitRun(Returned(result), RequestsOf(events[0]), 1)
      case KeepWaiting =>
        var rest := RunWait(events[1..]);
        WaitRun(rest.outcome, rest.requests + 1, rest.consumed + 1)
  }

  /** A run of events that came after another n events which all kept the loop waiting. */
  function After(run: WaitRun, n: nat): WaitRun
  {
    WaitRun(run.outcome, run.requests + n, run.consumed + n)
  }

  /** The loop of Wait over a finite trace. Each request sent is the getStatus
      request for this rental; what is returned, how many requests went out and
      how many events were consumed are those of RunWait. */
  method Wait(apiKey: string, id: string, events: seq<Event>)
    returns (outcome: WaitOutcome, sent: seq<Params>, consumed: nat)
    ensures RunWait(events) == WaitRun(outcome, |sent|, consumed)
    ensures forall k :: 0 <= k < |sent| ==> sent[k] == StatusParams(apiKey, id)
  {
    sent := [];
    consumed := 0;
    while consumed < |events|
      invariant consumed <= |events|
      invariant |sent| == consumed
      invariant forall k :: 0 <= k < |sent| ==> sent[k] == StatusParams(apiKey, id)
      invariant RunWait(events) == After(RunWait(events[consumed..]), consumed)
    {
      var event := events[consumed];
      assert events[consumed..][0] == event && events[consumed..][1..] == events[consumed + 1..];
      consumed := consumed + 1;
      match event {
        case Cancelled(reason) =>
          return Returned(Err(ContextErr(reason))), sent, consumed;
        case Tick(reply) =>
          sent := sent + [StatusParams(apiKey, id)];
          match reply {
            case IoFailure(cause) =>
              return Returned(Err(Transport(cause))), sent, consumed;
            case Body(text) =>
              match PollStatus(text) {
                case KeepWaiting =>
                case Finished(result) =>
                  return Returned(result), sent, consumed;
              }
          }
      }
    }
    outcome := TraceExhausted;
  }

  // ---- what a run looks like ----

  /** The events a run consumed without returning on them: all of them when the
      trace ran out, all but the last otherwise. */
  function Kept(run: WaitRun): nat
  {
    if run.outcome.Returned? && run.consumed > 0 then run.consumed - 1 else run.consumed
  }

  /** One status request was sent per tick the loop consumed, and none for anything else. */
  lemma {:induction false} RunRequests(events: seq<Event>)
    ensures RunWait(events).requests == TickCount(events[..RunWait(events).consumed])
    decreases |events|
  {
    if |events| > 0 {
      var run := RunWait(events);
      assert events[..run.consumed][0] == events[0];
      assert events[..run.consumed][1..] == events[1..][..run.consumed - 1];
      if Step(events[0]).KeepWaiting? {
        RunRequests(events[1..]);
      }
    }
  }

  /** A returned result is what the last event consumed decided. */
  lemma {:induction false} RunLastDecides(events: seq<Event>)
    requires RunWait(events).outcome.Returned?
    ensures RunWait(events).consumed >= 1
    ensures Step(events[RunWait(events).consumed - 1]) == Finished(RunWait(events).outcome.result)
    decreases |events|
  {
    if Step(events[0]).KeepWaiting? {
      RunLastDecides(events[1..]);
      assert events[1..][RunWait(events[1..]).consumed - 1] == events[RunWait(events).consumed - 1];
    }
  }

  /** Every event the loop went past was a STATUS_WAIT_CODE reply. */
  lemma {:induction false} RunWaitedBefore(events: seq<Event>)
    ensures forall k :: 0 <= k < Kept(RunWait(events)) ==> events[k] == Tick(Body(STATUS_WAIT_CODE))
    decreases |events|
  {
    if |events| > 0 && Step(events[0]).KeepWaiting? {
      var run := RunWait(events);
      RunWaitedBefore(events[1..]);
      assert events[0].Tick? && events[0].reply.Body?;
      PollKeepsWaitingIff(events[0].reply.text);
      forall k | 0 < k < Kept(run) ensures events[k] == Tick(Body(STATUS_WAIT_CODE)) {
        assert events[1..][k - 1] == events[k];
      }
    }
  }

  /** Conversely: the first event that does not keep the loop waiting decides the run.
      The loop returns what that event decided, having sent one request per wait
      reply before it plus its own, and consumes nothing after it. */
  lemma {:induction false} FirstDecisiveEvent(events: seq<Event>, k: nat)
    requires k < |events|
    requires forall j :: 0 <= j < k ==> events[j] == Tick(Body(STATUS_WAIT_CODE))
    requires Step(events[k]).Finished?
    ensures RunWait(events) == WaitRun(Returned(Step(events[k]).result), k + RequestsOf(events[k]), k + 1)
    decreases k
  {
    if k > 0 {
      PollKeepsWaitingIff(STATUS_WAIT_CODE);
      assert events[1..][k - 1] == events[k];
      FirstDecisiveEvent(events[1..], k - 1);
    }
  }

  /** Cancellation after k wait replies returns ctx.Err() and sends no request in that iteration. */
  lemma CancelledMidWait(events: seq<Event>, k: nat, reason: ContextReason)
    requires k < |events| && events[k] == Cancelled(reason)
    requires forall j :: 0 <= j < k ==> events[j] == Tick(Body(STATUS_WAIT_CODE))
    ensures RunWait(events) == WaitRun(Returned(Err(ContextErr(reason))), k, k + 1)
  {
    FirstDecisiveEvent(events, k);
  }

  /** A failure of the request or of reading its body after k wait replies is
      returned unchanged, with that request counted. */
  lemma IoFailureMidWait(events: seq<Event>, k: nat, cause: string)
    requires k < |events| && events[k] == Tick(IoFailure(cause))
    requires forall j :: 0 <= j < k ==> events[j] == Tick(Body(STATUS_WAIT_CODE))
    ensures RunWait(events) == WaitRun(Returned(Err(Transport(cause))), k + 1, k + 1)
  {
    FirstDecisiveEvent(events, k);
  }

  /** No request goes out before the first tick: cancellation first means nothing was sent. */
  lemma NoRequestBeforeFirstTick(events: seq<Event>)
    ensures RunWait(events).requests <= TickCount(events)
    ensures |events| > 0 && events[0].Cancelled? ==> RunWait(events).requests == 0
  {
    RunRequests(events);
    TickCountOfPrefix(events, RunWait(events).consumed);
  }

  /** Ticks among a prefix never outnumber those of the whole trace. */
  lemma {:induction false} TickCountOfPrefix(events: seq<Event>, n: nat)
    requires n <= |events|
    ensures TickCount(events[..n]) <= TickCount(events)
    decreases n
  {
    if n > 0 {
      assert events[..n][0] == events[0];
      assert events[..n][1..] == events[1..][..n - 1];
      TickCountOfPrefix(events[1..], n - 1);
    }
  }

  /** Once the loop has returned, later events are never consumed: no request after the terminal one. */
  lemma {:induction false} LaterEventsIgnored(events: seq<Event>, later: seq<Event>)
    requires RunWait(events).outcome.Returned?
    ensures RunWait(events + later) == RunWait(events)
    decreases |events|
  {
    assert (events + later)[0] == events[0];
    if Step(events[0]).KeepWaiting? {
      assert (events + later)[1..] == events[1..] + later;
      LaterEventsIgnored(events[1..], later);
    }
  }

  /** A trace that only kept the loop waiting sent one request per event, and the
      loop goes on from whatever comes next. */
  lemma {:induction false} ExhaustedThenMore(events: seq<Event>, later: seq<Event>)
    requires RunWait(events).outcome.TraceExhausted?
    ensures RunWait(events).requests == |events|
    ensures RunWait(events + later) == After(RunWait(later), |events|)
    decreases |events|
  {
    if |events| == 0 {
      assert events + later == later;
    } else {
      assert (events + later)[0] == events[0];
      assert (events + later)[1..] == events[1..] + later;
      ExhaustedThenMore(events[1..], later);
    }
  }

  /** Two wait replies and then a code: the code after the third request. */
  lemma CodeAfterTwoWaits(events: seq<Event>)
    requires events == [Tick(Body(STATUS_WAIT_CODE)), Tick(Body(STATUS_WAIT_CODE)), Tick(Body("STATUS_OK:4242"))]
    ensures RunWait(events) == WaitRun(Returned(Ok("4242")), 3, 3)
  {
    var parts := ["STATUS_OK", "4242"];
    assert Text.Join(parts, COLON) == "STATUS_OK:4242";
    PollRecord(parts);
    assert Step(events[2]) == Finished(Ok("4242"));
    assert forall j :: 0 <= j < 2 ==> events[j] == Tick(Body(STATUS_WAIT_CODE));
    FirstDecisiveEvent(events, 2);
  }
}
