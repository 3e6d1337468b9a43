/** The start and failure triggers of the service-backed client's agent and service
    streams. Each stream shows `Unknown` at once and polls nothing until the start
    trigger; the start trigger switches to a fresh polling subscription; the
    application-failed trigger switches to a single `Failed` and ends the stream.
    A poll that rethrows ends the stream with that error. */
module Gating {
  import opened Wrappers
  import opened Streams
  import opened Classify
  import opened StatusPolling
  import Status
  import Agent

  /** What reaches a gated stream: a trigger, or the outcome of one poll of the
      active subscription. */
  datatype Event<P> = StartPolling | ApplicationFailed | Poll(outcome: Outcome<P>)

  /** No trigger among the events. */
  predicate Untriggered<P>(events: seq<Event<P>>) {
    forall i :: 0 <= i < |events| ==> events[i].Poll?
  }

  // The agent stream (ObservableMeshClient.PollAgentStatus)

  /** The agent stream after its leading `Unknown`; `polling` is the recorded state of
      the active subscription, if one was started. */
  function AgentGate(polling: Option<Status.AgentStatus>, events: seq<Event<(Status.LogResponse, string)>>)
    : (t: Trace<Status.AgentStatus>)
    requires polling.Some? ==> Agent.Recordable(polling.value)
    ensures t.end.Errored? ==> exists i :: 0 <= i < |events| && events[i].Poll? && events[i].outcome.Threw?
    decreases |events|
  {
    if events == [] then Trace([], Open)
    else match events[0]
      case StartPolling => AgentGate(Some(Status.AgentStatus.Unknown), events[1..])
      case ApplicationFailed => Trace([Status.AgentStatus.Failed], Completed)
      case Poll(outcome) =>
        if polling.None? then AgentGate(None, events[1..])
        else match outcome
          case Threw(e) => Trace([], Errored(Message(e)))
          case Returned(pair) =>
            var r := Agent.AgentStep(polling.value, pair.0, pair.1);
            if r.completes then Trace([Status.AgentStatus.NotFound], Completed)
            else
              var rest := AgentGate(Some(r.state), events[1..]);
              Trace(Agent.Announced(r.emitted) + rest.items, rest.end)
  }

  /** The agent stream: `Unknown` at once, then the gated stream. `Failed` comes only
      after an application failure, only once and last, and completes the stream; the
      stream errors only after a failed poll. */
  function AgentStatusStream(events: seq<Event<(Status.LogResponse, string)>>): (t: Trace<Status.AgentStatus>)
    ensures |t.items| > 0 && t.items[0] == Status.AgentStatus.Unknown
    ensures Status.AgentStatus.Failed in t.items ==>
              && t.items[|t.items| - 1] == Status.AgentStatus.Failed && t.end == Completed
              && Status.AgentStatus.Failed !in t.items[..|t.items| - 1] && ApplicationFailed in events
    ensures t.end.Errored? ==> exists i :: 0 <= i < |events| && events[i].Poll? && events[i].outcome.Threw?
  {
    var rest := AgentGate(None, events);
    AgentFailedIsFinal(None, events);
    var t := Trace([Status.AgentStatus.Unknown] + rest.items, rest.end);
    assert t.items[1..] == rest.items;
    assert rest.items != [] ==> t.items[..|t.items| - 1] == [Status.AgentStatus.Unknown] + rest.items[..|rest.items| - 1];
    t
  }

  /** `Failed` is only ever announced last, and then the stream has completed. */
  lemma {:induction false} AgentFailedIsFinal(polling: Option<Status.AgentStatus>,
                                              events: seq<Event<(Status.LogResponse, string)>>)
    requires polling.Some? ==> Agent.Recordable(polling.value)
    ensures var t := AgentGate(polling, events);
      Status.AgentStatus.Failed in t.items ==>
        t.items[|t.items| - 1] == Status.AgentStatus.Failed && t.end == Completed
        && Status.AgentStatus.Failed !in t.items[..|t.items| - 1] && ApplicationFailed in events
    decreases |events|
  {
    if events != [] {
      var rest := events[1..];
      assert events == [events[0]] + rest;
      match events[0]
      case StartPolling =>
        AgentFailedIsFinal(Some(Status.AgentStatus.Unknown), rest);
      case ApplicationFailed =>
      case Poll(outcome) =>
        if polling.None? {
          AgentFailedIsFinal(None, rest);
        } else if outcome.Returned? {
          var r := Agent.AgentStep(polling.value, outcome.value.0, outcome.value.1);
          if !r.completes {
            AgentFailedIsFinal(Some(r.state), rest);
            var tail := AgentGate(Some(r.state), rest);
            var head := Agent.Announced(r.emitted);
            var items := head + tail.items;
            assert Status.AgentStatus.Failed !in head;
            if Status.AgentStatus.Failed in items {
              assert Status.AgentStatus.Failed in tail.items;
              assert items[..|items| - 1] == head + tail.items[..|tail.items| - 1];
            }
          }
        }
    }
  }

  /** The events of a run of successful polls, one per input. */
  function PollsOf<P>(ps: seq<P>): (es: seq<Event<P>>)
    ensures |es| == |ps| && Untriggered(es)
    ensures forall i :: 0 <= i < |ps| ==> es[i] == Poll(Returned(ps[i]))
  {
    seq(|ps|, i requires 0 <= i < |ps| => Poll(Returned(ps[i])))
  }

  /** Before the start trigger, polls are not listened to. */
  lemma {:induction false} AgentWaitingIgnoresPolls(pre: seq<Event<(Status.LogResponse, string)>>,
                                                    rest: seq<Event<(Status.LogResponse, string)>>)
    requires Untriggered(pre)
    ensures AgentGate(None, pre + rest) == AgentGate(None, rest)
    decreases |pre|
  {
    if pre != [] {
      assert (pre + rest)[1..] == pre[1..] + rest;
      assert (pre + rest)[0] == pre[0] && pre[0].Poll?;
      AgentWaitingIgnoresPolls(pre[1..], rest);
    } else {
      assert pre + rest == rest;
    }
  }

  /** Once started, the gated stream is the agent state machine fed the polled pairs. */
  lemma {:induction false} AgentPollingIsRun(last: Status.AgentStatus, pairs: seq<(Status.LogResponse, string)>)
    requires Agent.Recordable(last)
    ensures AgentGate(Some(last), PollsOf(pairs)) == Agent.Run(last, pairs)
    decreases |pairs|
  {
    if pairs != [] {
      assert PollsOf(pairs)[1..] == PollsOf(pairs[1..]);
      var r := Agent.AgentStep(last, pairs[0].0, pairs[0].1);
      if !r.completes {
        AgentPollingIsRun(r.state, pairs[1..]);
      }
    }
  }

  /** Without a trigger the agent stream shows only `Unknown` and stays open. */
  lemma AgentQuietUntilTriggered(events: seq<Event<(Status.LogResponse, string)>>)
    requires Untriggered(events)
    ensures AgentStatusStream(events) == Trace([Status.AgentStatus.Unknown], Open)
  {
    AgentWaitingIgnoresPolls(events, []);
    assert events + [] == events;
  }

  /** An application failure before the start trigger ends the stream with `Failed`. */
  lemma AgentFailsBeforeStart(pre: seq<Event<(Status.LogResponse, string)>>,
                              post: seq<Event<(Status.LogResponse, string)>>)
    requires Untriggered(pre)
    ensures AgentStatusStream(pre + [ApplicationFailed] + post)
         == Trace([Status.AgentStatus.Unknown, Status.AgentStatus.Failed], Completed)
  {
    assert pre + [ApplicationFailed] + post == pre + ([ApplicationFailed] + post);
    AgentWaitingIgnoresPolls(pre, [ApplicationFailed] + post);
  }

  /** After the start trigger, the stream is `Unknown` followed by the state machine's
      announcements for the polled pairs. */
  lemma AgentStartsPolling(pre: seq<Event<(Status.LogResponse, string)>>, pairs: seq<(Status.LogResponse, string)>)
    requires Untriggered(pre)
    ensures var run := Agent.Run(Status.AgentStatus.Unknown, pairs);
      AgentStatusStream(pre + [StartPolling] + PollsOf(pairs))
        == Trace([Status.AgentStatus.Unknown] + run.items, run.end)
  {
    assert pre + [StartPolling] + PollsOf(pairs) == pre + ([StartPolling] + PollsOf(pairs));
    AgentWaitingIgnoresPolls(pre, [StartPolling] + PollsOf(pairs));
    assert ([StartPolling] + PollsOf(pairs))[1..] == PollsOf(pairs);
    AgentPollingIsRun(Status.AgentStatus.Unknown, pairs);
  }

  /** Polls that leave the stream open are followed by the restart of a start trigger:
      what they announced is kept and the new subscription begins afresh. */
  lemma {:induction false} AgentRestartAfter(polling: Option<Status.AgentStatus>,
                                             pre: seq<Event<(Status.LogResponse, string)>>,
                                             rest: seq<Event<(Status.LogResponse, string)>>)
    requires polling.Some? ==> Agent.Recordable(polling.value)
    requires Untriggered(pre) && AgentGate(polling, pre).end == Open
    ensures var restarted := AgentGate(Some(Status.AgentStatus.Unknown), rest);
      AgentGate(polling, pre + [StartPolling] + rest)
        == Trace(AgentGate(polling, pre).items + restarted.items, restarted.end)
    decreases |pre|, 1
  {
    if pre == [] {
      assert pre + [StartPolling] + rest == [StartPolling] + rest;
      assert ([StartPolling] + rest)[1..] == rest;
    } else {
      AgentRestartAfterPoll(polling, pre, rest);
    }
  }

  /** The step of `AgentRestartAfter` past the first of the polls before the restart. */
  lemma {:induction false} AgentRestartAfterPoll(polling: Option<Status.AgentStatus>,
                                                 pre: seq<Event<(Status.LogResponse, string)>>,
                                                 rest: seq<Event<(Status.LogResponse, string)>>)
    requires polling.Some? ==> Agent.Recordable(polling.value)
    requires pre != [] && Untriggered(pre) && AgentGate(polling, pre).end == Open
    ensures var restarted := AgentGate(Some(Status.AgentStatus.Unknown), rest);
      AgentGate(polling, pre + [StartPolling] + rest)
        == Trace(AgentGate(polling, pre).items + restarted.items, restarted.end)
    decreases |pre|, 0
  {
    var all := pre + [StartPolling] + rest;
    assert all[1..] == pre[1..] + [StartPolling] + rest;
    assert all[0] == pre[0];
    if polling.Some? {
      var pair := pre[0].outcome.value;
      var r := Agent.AgentStep(polling.value, pair.0, pair.1);
      AgentRestartAfter(Some(r.state), pre[1..], rest);
    } else {
      AgentRestartAfter(None, pre[1..], rest);
    }
  }

  /** Polling, a second start trigger, more polling: the two subscriptions' runs
      follow one another. */
  lemma AgentRunsInTurn(first: seq<(Status.LogResponse, string)>, pairs: seq<(Status.LogResponse, string)>)
    requires Agent.Run(Status.AgentStatus.Unknown, first).end == Open
    ensures var after := Agent.Run(Status.AgentStatus.Unknown, pairs);
      AgentGate(Some(Status.AgentStatus.Unknown), PollsOf(first) + [StartPolling] + PollsOf(pairs))
        == Trace(Agent.Run(Status.AgentStatus.Unknown, first).items + after.items, after.end)
  {
    AgentPollingIsRun(Status.AgentStatus.Unknown, first);
    AgentRestartAfter(Some(Status.AgentStatus.Unknown), PollsOf(first), PollsOf(pairs));
    AgentPollingIsRun(Status.AgentStatus.Unknown, pairs);
  }

  /** A leading start trigger begins polling from `Unknown`. */
  lemma AgentStartFirst(polls: seq<Event<(Status.LogResponse, string)>>)
    ensures var g := AgentGate(Some(Status.AgentStatus.Unknown), polls);
      AgentStatusStream([StartPolling] + polls) == Trace([Status.AgentStatus.Unknown] + g.items, g.end)
  {
    assert ([StartPolling] + polls)[1..] == polls;
  }

  /** A second start trigger restarts the state machine from `Unknown`. */
  lemma AgentRestart(first: seq<(Status.LogResponse, string)>, pairs: seq<(Status.LogResponse, string)>)
    requires Agent.Run(Status.AgentStatus.Unknown, first).end == Open
    ensures var before := Agent.Run(Status.AgentStatus.Unknown, first);
      var after := Agent.Run(Status.AgentStatus.Unknown, pairs);
      AgentStatusStream([StartPolling] + (PollsOf(first) + [StartPolling] + PollsOf(pairs)))
        == Trace([Status.AgentStatus.Unknown] + (before.items + after.items), after.end)
  {
    AgentStartFirst(PollsOf(first) + [StartPolling] + PollsOf(pairs));
    AgentRunsInTurn(first, pairs);
  }

  // The service stream (ObservableMeshClient.PollServiceStatus)

  /** The service stream after its leading `Unknown`; `polling` holds the last reading
      of the active subscription, if one was started. */
  function ServiceGate(polling: Option<Option<StatusReading<Status.ServiceStatus>>>,
                       events: seq<Event<ResourceBody>>): (t: Trace<Status.ServiceStatus>)
    ensures t.end == Completed ==>
              |t.items| > 0
              && (t.items[|t.items| - 1] == Status.ServiceStatus.NotFound
                  || t.items[|t.items| - 1] == Status.ServiceStatus.Failed)
    ensures t.end.Errored? ==>
              exists i :: 0 <= i < |events| && events[i].Poll? && ReadServiceStatus(events[i].outcome).Threw?
    decreases |events|
  {
    if events == [] then Trace([], Open)
    else match events[0]
      case StartPolling =>
        var rest := ServiceGate(Some(None), events[1..]);
        Trace([Status.ServiceStatus.Unknown] + rest.items, rest.end)
      case ApplicationFailed => Trace([Status.ServiceStatus.Failed], Completed)
      case Poll(call) =>
        if polling.None? then ServiceGate(None, events[1..])
        else match ReadServiceStatus(call)
          case Threw(e) => Trace([], Errored(Message(e)))
          case Returned(reading) =>
            var e := StatusStep(polling.value, reading, Status.ServiceStatus.NotFound);
            if e.stops then Trace(e.items, Completed)
            else
              var rest := ServiceGate(Some(if e.items == [] then polling.value else Some(reading)), events[1..]);
              Trace(e.items + rest.items, rest.end)
  }

  /** The service stream: `Unknown` at once, then the gated stream. It completes only
      on `NotFound` or on the application failure's `Failed`, and errors only after a
      poll whose reading failed. */
  function ServiceStatusStream(events: seq<Event<ResourceBody>>): (t: Trace<Status.ServiceStatus>)
    ensures |t.items| > 0 && t.items[0] == Status.ServiceStatus.Unknown
    ensures t.end == Completed ==>
              t.items[|t.items| - 1] == Status.ServiceStatus.NotFound || t.items[|t.items| - 1] == Status.ServiceStatus.Failed
    ensures t.end.Errored? ==>
              exists i :: 0 <= i < |events| && events[i].Poll? && ReadServiceStatus(events[i].outcome).Threw?
  {
    var rest := ServiceGate(None, events);
    Trace([Status.ServiceStatus.Unknown] + rest.items, rest.end)
  }

  /** The readings a run of service queries yields. */
  function ServiceReadings(calls: seq<Outcome<ResourceBody>>): (rs: seq<Outcome<StatusReading<Status.ServiceStatus>>>)
    ensures |rs| == |calls|
    ensures forall i :: 0 <= i < |calls| ==> rs[i] == ReadServiceStatus(calls[i])
  {
    seq(|calls|, i requires 0 <= i < |calls| => ReadServiceStatus(calls[i]))
  }

  lemma {:induction false} ServiceWaitingIgnoresPolls(pre: seq<Event<ResourceBody>>, rest: seq<Event<ResourceBody>>)
    requires Untriggered(pre)
    ensures ServiceGate(None, pre + rest) == ServiceGate(None, rest)
    decreases |pre|
  {
    if pre != [] {
      assert (pre + rest)[1..] == pre[1..] + rest;
      assert (pre + rest)[0] == pre[0] && pre[0].Poll?;
      ServiceWaitingIgnoresPolls(pre[1..], rest);
    } else {
      assert pre + rest == rest;
    }
  }

  /** Once started, the gated stream is the shaped status stream of the readings. */
  lemma {:induction false} ServicePollingIsShape(prev: Option<StatusReading<Status.ServiceStatus>>,
                                                 calls: seq<Outcome<ResourceBody>>)
    ensures ServiceGate(Some(prev), seq(|calls|, i requires 0 <= i < |calls| => Poll(calls[i])))
         == Shape(prev, ServiceReadings(calls), Status.ServiceStatus.NotFound)
    decreases |calls|
  {
    var es := seq(|calls|, i requires 0 <= i < |calls| => Poll(calls[i]));
    if calls != [] {
      var tail := calls[1..];
      assert es[1..] == seq(|tail|, i requires 0 <= i < |tail| => Poll(tail[i]));
      assert ServiceReadings(calls)[1..] == ServiceReadings(tail);
      match ReadServiceStatus(calls[0])
      case Threw(e) =>
      case Returned(reading) =>
        var e := StatusStep(prev, reading, Status.ServiceStatus.NotFound);
        if !e.stops {
          ServicePollingIsShape(if e.items == [] then prev else Some(reading), tail);
        }
    }
  }

  /** Without a trigger the service stream shows only `Unknown` and stays open. */
  lemma ServiceQuietUntilTriggered(events: seq<Event<ResourceBody>>)
    requires Untriggered(events)
    ensures ServiceStatusStream(events) == Trace([Status.ServiceStatus.Unknown], Open)
  {
    ServiceWaitingIgnoresPolls(events, []);
    assert events + [] == events;
  }

  /** An application failure before the start trigger ends the stream with `Failed`. */
  lemma ServiceFailsBeforeStart(pre: seq<Event<ResourceBody>>, post: seq<Event<ResourceBody>>)
    requires Untriggered(pre)
    ensures ServiceStatusStream(pre + [ApplicationFailed] + post)
         == Trace([Status.ServiceStatus.Unknown, Status.ServiceStatus.Failed], Completed)
  {
    assert pre + [ApplicationFailed] + post == pre + ([ApplicationFailed] + post);
    ServiceWaitingIgnoresPolls(pre, [ApplicationFailed] + post);
  }

  /** After the start trigger the stream shows `Unknown` once more (the polling
      subscription's own first value), then the shaped readings. */
  lemma ServiceStartsPolling(pre: seq<Event<ResourceBody>>, calls: seq<Outcome<ResourceBody>>)
    requires Untriggered(pre)
    ensures var polled := PollStream(Status.ServiceStatus.Unknown, Status.ServiceStatus.NotFound,
                                     ServiceReadings(calls));
      ServiceStatusStream(pre + [StartPolling] + seq(|calls|, i requires 0 <= i < |calls| => Poll(calls[i])))
        == Trace([Status.ServiceStatus.Unknown] + polled.items, polled.end)
  {
    var es := seq(|calls|, i requires 0 <= i < |calls| => Poll(calls[i]));
    assert pre + [StartPolling] + es == pre + ([StartPolling] + es);
    ServiceWaitingIgnoresPolls(pre, [StartPolling] + es);
    assert ([StartPolling] + es)[1..] == es;
    ServicePollingIsShape(None, calls);
  }
}
