/** The first scenario's agent-status machine: the same transitions as the
    service-backed client's, over the first scenario's enumeration (which has no
    `Failed`), with the stream starting at `Unknown` as soon as it is subscribed
    rather than behind a start trigger. */
module ScenarioAgent {
  import opened Wrappers
  import opened Strings
  import opened Streams
  import opened ScenarioStatus
  import Status
  import Agent
  import Classify
  import StatusPolling

  datatype Step = Step(state: AgentStatus, emitted: Option<AgentStatus>, completes: bool)

  function AgentStep(last: AgentStatus, response: Status.LogResponse, line: string): (r: Step)
    ensures r.completes <==> last != AgentStatus.Unknown && last != NotReady && response != Status.Output
    ensures r.completes ==> r.state == last && r.emitted == Some(AgentStatus.NotFound)
  {
    if last == AgentStatus.Unknown && response == Status.ResourceNotReady then
      Step(NotReady, Some(NotReady), false)
    else if (last == AgentStatus.Unknown || last == NotReady) && response == Status.Output then
      Step(Starting, Some(Starting), false)
    else if last == Starting && response == Status.Output && Contains(line, Agent.ListeningMarker) then
      Step(AgentStatus.Ready, Some(AgentStatus.Ready), false)
    else if last != AgentStatus.Unknown && last != NotReady && response != Status.Output then
      Step(last, Some(AgentStatus.NotFound), true)
    else
      Step(last, None, false)
  }

  function AsEmitted(o: Option<AgentStatus>): Option<Status.AgentStatus> {
    if o.Some? then Some(AsAgentStatus(o.value)) else None
  }

  /** Every step is the service-backed client's step, read through the embedding. */
  lemma StepAgrees(last: AgentStatus, response: Status.LogResponse, line: string)
    ensures var r := AgentStep(last, response, line);
      Agent.AgentStep(AsAgentStatus(last), response, line) ==
        Agent.Step(AsAgentStatus(r.state), AsEmitted(r.emitted), r.completes)
  {
  }

  function AsStatuses(xs: seq<AgentStatus>): (r: seq<Status.AgentStatus>)
    ensures |r| == |xs|
    ensures forall i :: 0 <= i < |xs| ==> r[i] == AsAgentStatus(xs[i])
  {
    seq(|xs|, i requires 0 <= i < |xs| => AsAgentStatus(xs[i]))
  }

  function Run(last: AgentStatus, pairs: seq<(Status.LogResponse, string)>): (t: Trace<AgentStatus>)
    decreases |pairs|
  {
    if pairs == [] then Trace([], Open)
    else
      var r := AgentStep(last, pairs[0].0, pairs[0].1);
      if r.completes then Trace([AgentStatus.NotFound], Completed)
      else
        var rest := Run(r.state, pairs[1..]);
        Trace((if r.emitted.Some? then [r.emitted.value] else []) + rest.items, rest.end)
  }

  lemma {:induction false} AsStatusesAppend(a: seq<AgentStatus>, b: seq<AgentStatus>)
    ensures AsStatuses(a + b) == AsStatuses(a) + AsStatuses(b)
  {
    var l, r := AsStatuses(a + b), AsStatuses(a) + AsStatuses(b);
    forall i | 0 <= i < |l| ensures l[i] == r[i] {
      if i < |a| {
        assert (a + b)[i] == a[i];
      } else {
        assert (a + b)[i] == b[i - |a|];
      }
    }
  }

  /** One step of the service-backed client's run. */
  lemma AgentRunCons(last: Status.AgentStatus, pairs: seq<(Status.LogResponse, string)>)
    requires Agent.Recordable(last) && pairs != []
    ensures var r := Agent.AgentStep(last, pairs[0].0, pairs[0].1);
      && (r.completes ==> Agent.Run(last, pairs) == Trace([Status.AgentStatus.NotFound], Completed))
      && (!r.completes ==> Agent.Recordable(r.state))
      && (!r.completes ==>
            Agent.Run(last, pairs)
            == Trace(Agent.Announced(r.emitted) + Agent.Run(r.state, pairs[1..]).items,
                     Agent.Run(r.state, pairs[1..]).end))
  {
  }

  /** The whole run is the service-backed client's run, read through the embedding. */
  lemma {:induction false} RunAgrees(last: AgentStatus, pairs: seq<(Status.LogResponse, string)>)
    requires Agent.Recordable(AsAgentStatus(last))
    ensures var t := Run(last, pairs);
      Agent.Run(AsAgentStatus(last), pairs) == Trace(AsStatuses(t.items), t.end)
    decreases |pairs|
  {
    if pairs != [] {
      var r := AgentStep(last, pairs[0].0, pairs[0].1);
      StepAgrees(last, pairs[0].0, pairs[0].1);
      AgentRunCons(AsAgentStatus(last), pairs);
      if !r.completes {
        RunAgrees(r.state, pairs[1..]);
        var rest := Run(r.state, pairs[1..]);
        var head := if r.emitted.Some? then [r.emitted.value] else [];
        AsStatusesAppend(head, rest.items);
        assert AsStatuses(head) == Agent.Announced(AsEmitted(r.emitted));
      } else {
        assert AsStatuses([AgentStatus.NotFound]) == [Status.AgentStatus.NotFound];
      }
    }
  }

  /** What the service-backed client's run promises, carried over to this run. */
  lemma RunOrdered(pairs: seq<(Status.LogResponse, string)>)
    ensures var t := Run(AgentStatus.Unknown, pairs);
      && (forall i, j :: 0 <= i < j < |t.items| ==>
            Agent.Progress(AsAgentStatus(t.items[i])) < Agent.Progress(AsAgentStatus(t.items[j])))
      && (forall i :: 0 <= i < |t.items| ==> 0 < Agent.Progress(AsAgentStatus(t.items[i])))
      && (t.end == Open || t.end == Completed)
      && (t.end == Completed <==> |t.items| > 0 && t.items[|t.items| - 1] == AgentStatus.NotFound)
  {
    var t := Run(AgentStatus.Unknown, pairs);
    RunAgrees(AgentStatus.Unknown, pairs);
    var a := Agent.Run(Status.AgentStatus.Unknown, pairs);
    OrderedThroughEmbedding(t.items, a.items);
    if |t.items| > 0 {
      assert a.items[|t.items| - 1] == AsAgentStatus(t.items[|t.items| - 1]);
    }
  }

  /** A sequence whose embedding increases strictly past `Unknown` does so itself. */
  lemma OrderedThroughEmbedding(xs: seq<AgentStatus>, a: seq<Status.AgentStatus>)
    requires a == AsStatuses(xs)
    requires forall i, j :: 0 <= i < j < |a| ==> Agent.Progress(a[i]) < Agent.Progress(a[j])
    requires forall i :: 0 <= i < |a| ==> Agent.Progress(Status.AgentStatus.Unknown) < Agent.Progress(a[i])
    ensures forall i, j :: 0 <= i < j < |xs| ==>
              Agent.Progress(AsAgentStatus(xs[i])) < Agent.Progress(AsAgentStatus(xs[j]))
    ensures forall i :: 0 <= i < |xs| ==> 0 < Agent.Progress(AsAgentStatus(xs[i]))
  {
    forall i, j | 0 <= i < j < |xs|
      ensures Agent.Progress(AsAgentStatus(xs[i])) < Agent.Progress(AsAgentStatus(xs[j]))
    {
      assert a[i] == AsAgentStatus(xs[i]) && a[j] == AsAgentStatus(xs[j]);
    }
    forall i | 0 <= i < |xs| ensures 0 < Agent.Progress(AsAgentStatus(xs[i])) {
      assert a[i] == AsAgentStatus(xs[i]);
    }
  }

  /** The run over polls that may fail: each returned pair is one step, a failure (a
      rethrown log query, or the log reassembly's error) ends the stream with an
      error, and nothing after completion or failure is looked at. */
  function PolledRun(last: AgentStatus, polls: seq<Classify.Outcome<(Status.LogResponse, string)>>)
    : (t: Trace<AgentStatus>)
    ensures t.end.Errored? ==> exists i :: 0 <= i < |polls| && polls[i].Threw?
    decreases |polls|
  {
    if polls == [] then Trace([], Open)
    else match polls[0]
      case Threw(e) => Trace([], Errored(StatusPolling.Message(e)))
      case Returned(pair) =>
        var r := AgentStep(last, pair.0, pair.1);
        if r.completes then Trace([AgentStatus.NotFound], Completed)
        else
          var rest := PolledRun(r.state, polls[1..]);
          Trace((if r.emitted.Some? then [r.emitted.value] else []) + rest.items, rest.end)
  }

  /** Polling step by step is the run over the pairs returned before the first failure,
      ended by that failure unless the run completed first. */
  lemma {:induction false} PolledRunIsRunUntilFailure(last: AgentStatus,
                                                      polls: seq<Classify.Outcome<(Status.LogResponse, string)>>)
    ensures PolledRun(last, polls) == StatusPolling.EndedByFailure(Run(last, StatusPolling.Readings(polls)), polls)
    decreases |polls|
  {
    if polls != [] && polls[0].Returned? {
      var pair := polls[0].value;
      var tail := polls[1..];
      StatusPolling.ReadingsCons(polls);
      var ok := StatusPolling.Readings(tail);
      assert ([pair] + ok)[0] == pair && ([pair] + ok)[1..] == ok;
      var r := AgentStep(last, pair.0, pair.1);
      if !r.completes {
        PolledRunIsRunUntilFailure(r.state, tail);
      }
    }
  }

  /** What the run promises, carried over to polls that may fail. */
  lemma PolledRunOrdered(polls: seq<Classify.Outcome<(Status.LogResponse, string)>>)
    ensures var ok := StatusPolling.Readings(polls);
      var t := PolledRun(AgentStatus.Unknown, polls);
      && (forall i, j :: 0 <= i < j < |t.items| ==>
            Agent.Progress(AsAgentStatus(t.items[i])) < Agent.Progress(AsAgentStatus(t.items[j])))
      && (forall i :: 0 <= i < |t.items| ==> 0 < Agent.Progress(AsAgentStatus(t.items[i])))
      && (t.end == Completed <==> |t.items| > 0 && t.items[|t.items| - 1] == AgentStatus.NotFound)
      && (t.end.Errored? <==> |ok| < |polls| && Run(AgentStatus.Unknown, ok).end == Open)
      && (t.end.Errored? ==> t.end == Errored(StatusPolling.Message(polls[|ok|].error)))
  {
    var ok := StatusPolling.Readings(polls);
    PolledRunIsRunUntilFailure(AgentStatus.Unknown, polls);
    RunOrdered(ok);
  }

  /** The agent stream: `Unknown`, then what the polls announce. Each status is
      announced at most once, in start-up order, `NotFound` only last and exactly when
      the stream completes, and the stream errors only after a failed poll and only if
      the pairs returned before it left the run open. */
  function AgentStream(polls: seq<Classify.Outcome<(Status.LogResponse, string)>>): (t: Trace<AgentStatus>)
    ensures |t.items| > 0 && t.items[0] == AgentStatus.Unknown
    ensures forall i, j :: 0 <= i < j < |t.items| ==>
              Agent.Progress(AsAgentStatus(t.items[i])) < Agent.Progress(AsAgentStatus(t.items[j]))
    ensures t.end == Completed <==> t.items[|t.items| - 1] == AgentStatus.NotFound
    ensures t.end.Errored? <==>
              |StatusPolling.Readings(polls)| < |polls| && Run(AgentStatus.Unknown, StatusPolling.Readings(polls)).end == Open
    ensures t.end.Errored? ==> t.end == Errored(StatusPolling.Message(polls[|StatusPolling.Readings(polls)|].error))
  {
    var rest := PolledRun(AgentStatus.Unknown, polls);
    PolledRunOrdered(polls);
    AfterUnknown(rest.items);
    Trace([AgentStatus.Unknown] + rest.items, rest.end)
  }

  /** States past `Unknown` in increasing order stay in order behind it. */
  lemma AfterUnknown(items: seq<AgentStatus>)
    requires forall i, j :: 0 <= i < j < |items| ==>
               Agent.Progress(AsAgentStatus(items[i])) < Agent.Progress(AsAgentStatus(items[j]))
    requires forall i :: 0 <= i < |items| ==> 0 < Agent.Progress(AsAgentStatus(items[i]))
    ensures var all := [AgentStatus.Unknown] + items;
      && (forall i, j :: 0 <= i < j < |all| ==>
            Agent.Progress(AsAgentStatus(all[i])) < Agent.Progress(AsAgentStatus(all[j])))
      && (items != [] ==> all[|all| - 1] == items[|items| - 1])
      && (items == [] ==> all[|all| - 1] == AgentStatus.Unknown)
  {
    var all := [AgentStatus.Unknown] + items;
    forall i, j | 0 <= i < j < |all|
      ensures Agent.Progress(AsAgentStatus(all[i])) < Agent.Progress(AsAgentStatus(all[j]))
    {
      assert all[j] == items[j - 1];
      if i > 0 {
        assert all[i] == items[i - 1];
      }
    }
  }

  /** Polls that all return give the plain run over their pairs, which never errors. */
  lemma AgentStreamReturned(pairs: seq<(Status.LogResponse, string)>)
    ensures var run := Run(AgentStatus.Unknown, pairs);
      AgentStream(seq(|pairs|, i requires 0 <= i < |pairs| => Classify.Returned(pairs[i])))
        == Trace([AgentStatus.Unknown] + run.items, run.end)
  {
    var polls := seq(|pairs|, i requires 0 <= i < |pairs| => Classify.Returned(pairs[i]));
    StatusPolling.ReadingsOfReturned(pairs);
    PolledRunIsRunUntilFailure(AgentStatus.Unknown, polls);
  }
}
