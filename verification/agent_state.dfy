/** The agent-state stream of the first scenario's log extensions: NotReady, then
    Starting once the container log answers, then Running once the agent is
    listening, and Shutdown when a running agent's log disappears. Polls count only
    after the start trigger; a later trigger switches the log source but keeps the
    recorded state. */
module AgentState {
  import opened Wrappers
  import opened Strings
  import opened Streams
  import Status
  import Agent
  import Classify
  import StatusPolling

  datatype AgentState = NotReady | Starting | Running | Shutdown

  datatype Step = Step(state: AgentState, emitted: Option<AgentState>, completes: bool)

  function Progress(s: AgentState): nat {
    match s
    case NotReady => 0
    case Starting => 1
    case Running => 2
    case Shutdown => 3
  }

  /** The states the machine can record: it never records Shutdown. */
  predicate Recordable(s: AgentState) {
    s != Shutdown
  }

  function StateStep(last: AgentState, response: Status.LogResponse, line: string): (r: Step)
    ensures r.completes <==> last != AgentState.NotReady && response != Status.Output
    ensures r.completes ==> r.state == last && r.emitted == Some(Shutdown)
    ensures r.state != last ==> r.emitted == Some(r.state) && Progress(last) < Progress(r.state)
    ensures r.state == last && !r.completes ==> r.emitted == None
    ensures r.state == Starting && last != Starting <==> last == AgentState.NotReady && response == Status.Output
    ensures r.state == Running && last != Running <==>
              last == Starting && response == Status.Output && Contains(line, Agent.ListeningMarker)
  {
    if last == AgentState.NotReady && response == Status.Output then
      Step(Starting, Some(Starting), false)
    else if last == Starting && response == Status.Output && Contains(line, Agent.ListeningMarker) then
      Step(Running, Some(Running), false)
    else if last != AgentState.NotReady && response != Status.Output then
      Step(last, Some(Shutdown), true)
    else
      Step(last, None, false)
  }

  /** The announcements of the log pairs, from the recorded state `last`, until a
      step completes the stream. */
  function Run(last: AgentState, pairs: seq<(Status.LogResponse, string)>): (t: Trace<AgentState>)
    requires Recordable(last)
    ensures t.end == Open || t.end == Completed
    ensures forall i, j :: 0 <= i < j < |t.items| ==> Progress(t.items[i]) < Progress(t.items[j])
    ensures forall i :: 0 <= i < |t.items| ==> Progress(last) < Progress(t.items[i])
    ensures t.end == Completed <==> |t.items| > 0 && t.items[|t.items| - 1] == Shutdown
    decreases |pairs|
  {
    if pairs == [] then Trace([], Open)
    else
      var r := StateStep(last, pairs[0].0, pairs[0].1);
      if r.completes then Trace([Shutdown], Completed)
      else
        var rest := Run(r.state, pairs[1..]);
        AnnouncedThenRest(last, r, rest);
        Trace(Announced(r.emitted) + rest.items, rest.end)
  }

  /** An announcement of the step's new state, followed by a run that starts from it,
      is again a run from `last`. */
  lemma AnnouncedThenRest(last: AgentState, r: Step, rest: Trace<AgentState>)
    requires !r.completes && Recordable(r.state)
    requires r.state != last ==> r.emitted == Some(r.state) && Progress(last) < Progress(r.state)
    requires r.state == last ==> r.emitted == None
    requires forall i, j :: 0 <= i < j < |rest.items| ==> Progress(rest.items[i]) < Progress(rest.items[j])
    requires forall i :: 0 <= i < |rest.items| ==> Progress(r.state) < Progress(rest.items[i])
    requires rest.end == Completed <==> |rest.items| > 0 && rest.items[|rest.items| - 1] == Shutdown
    ensures var all := Announced(r.emitted) + rest.items;
      && (forall i, j :: 0 <= i < j < |all| ==> Progress(all[i]) < Progress(all[j]))
      && (forall i :: 0 <= i < |all| ==> Progress(last) < Progress(all[i]))
      && (rest.end == Completed <==> |all| > 0 && all[|all| - 1] == Shutdown)
  {
    var all := Announced(r.emitted) + rest.items;
    var h := |Announced(r.emitted)|;
    forall i, j | 0 <= i < j < |all| ensures Progress(all[i]) < Progress(all[j]) {
      assert all[j] == rest.items[j - h];
      if i >= h {
        assert all[i] == rest.items[i - h];
      }
    }
    forall i | 0 <= i < |all| ensures Progress(last) < Progress(all[i]) {
      if i >= h {
        assert all[i] == rest.items[i - h];
      }
    }
    if rest.items != [] {
      assert all[|all| - 1] == rest.items[|rest.items| - 1];
    }
  }

  function Announced(o: Option<AgentState>): seq<AgentState> {
    if o.Some? then [o.value] else []
  }

  /** What reaches the machine: the start trigger, or one poll of the active log
      subscription, which yields a (log answer, line) pair or fails. */
  datatype Event = StartPolling | Poll(outcome: Classify.Outcome<(Status.LogResponse, string)>)

  /** The stream after `NotReady`, given whether polling has started and the
      recorded state. A failure of the active subscription ends the stream with it. */
  function Watch(started: bool, last: AgentState, events: seq<Event>): (t: Trace<AgentState>)
    requires Recordable(last)
    decreases |events|
  {
    if events == [] then Trace([], Open)
    else match events[0]
      case StartPolling => Watch(true, last, events[1..])
      case Poll(outcome) =>
        if !started then Watch(false, last, events[1..])
        else match outcome
          case Threw(e) => Trace([], Errored(StatusPolling.Message(e)))
          case Returned(pair) =>
            var r := StateStep(last, pair.0, pair.1);
            if r.completes then Trace([Shutdown], Completed)
            else
              var rest := Watch(true, r.state, events[1..]);
              Trace(Announced(r.emitted) + rest.items, rest.end)
  }

  /** The polls that reach the machine: nothing before the first trigger, every poll
      after it (later triggers add nothing). */
  function PolledOutcomes(started: bool, events: seq<Event>)
    : (ps: seq<Classify.Outcome<(Status.LogResponse, string)>>)
    ensures |ps| <= |events|
    decreases |events|
  {
    if events == [] then []
    else match events[0]
      case StartPolling => PolledOutcomes(true, events[1..])
      case Poll(outcome) => (if started then [outcome] else []) + PolledOutcomes(started, events[1..])
  }

  /** The events reduce to the plain run over the pairs polled after the first
      trigger, ended by the first failed poll unless the run completed before it: early
      polls are ignored, and a second trigger does not reset the state. */
  lemma {:induction false} WatchIsRunAfterStart(started: bool, last: AgentState, events: seq<Event>)
    requires Recordable(last)
    ensures var polls := PolledOutcomes(started, events);
      Watch(started, last, events) == StatusPolling.EndedByFailure(Run(last, StatusPolling.Readings(polls)), polls)
    decreases |events|
  {
    if events != [] {
      var rest := events[1..];
      match events[0]
      case StartPolling =>
        WatchIsRunAfterStart(true, last, rest);
      case Poll(outcome) =>
        if !started {
          assert PolledOutcomes(false, events) == PolledOutcomes(false, rest);
          WatchIsRunAfterStart(false, last, rest);
        } else {
          var ps := PolledOutcomes(true, rest);
          var polls := [outcome] + ps;
          assert PolledOutcomes(true, events) == polls;
          assert polls[0] == outcome && polls[1..] == ps;
          if outcome.Returned? {
            StatusPolling.ReadingsCons(polls);
            var pair := outcome.value;
            var ok := StatusPolling.Readings(ps);
            assert ([pair] + ok)[0] == pair && ([pair] + ok)[1..] == ok;
            var r := StateStep(last, pair.0, pair.1);
            if !r.completes {
              WatchIsRunAfterStart(true, r.state, rest);
            }
          }
        }
    }
  }

  /** What the run promises, carried over to the events. */
  lemma WatchOrdered(events: seq<Event>)
    ensures var polls := PolledOutcomes(false, events);
      var ok := StatusPolling.Readings(polls);
      var t := Watch(false, AgentState.NotReady, events);
      && (forall i, j :: 0 <= i < j < |t.items| ==> Progress(t.items[i]) < Progress(t.items[j]))
      && (forall i :: 0 <= i < |t.items| ==> 0 < Progress(t.items[i]))
      && (t.end == Completed <==> |t.items| > 0 && t.items[|t.items| - 1] == Shutdown)
      && (t.end.Errored? <==> |ok| < |polls| && Run(AgentState.NotReady, ok).end == Open)
      && (t.end.Errored? ==> t.end == Errored(StatusPolling.Message(polls[|ok|].error)))
  {
    WatchIsRunAfterStart(false, AgentState.NotReady, events);
  }

  /** The agent-state stream: `NotReady`, then what the events announce. Every state
      after it is announced at most once, in order, `Shutdown` comes only last and
      exactly when the stream completes, and the stream errors exactly when a poll after
      the trigger fails while the run is still open. */
  function AgentStateStream(events: seq<Event>): (t: Trace<AgentState>)
    ensures |t.items| > 0 && t.items[0] == AgentState.NotReady
    ensures forall i, j :: 0 <= i < j < |t.items| ==> Progress(t.items[i]) < Progress(t.items[j])
    ensures t.end == Completed <==> t.items[|t.items| - 1] == Shutdown
    ensures var polls := PolledOutcomes(false, events);
      var ok := StatusPolling.Readings(polls);
      t.end.Errored? <==> |ok| < |polls| && Run(AgentState.NotReady, ok).end == Open
  {
    var rest := Watch(false, AgentState.NotReady, events);
    WatchOrderedItems(events);
    AfterNotReady(rest.items);
    WatchErrors(events);
    Trace([AgentState.NotReady] + rest.items, rest.end)
  }

  /** The ordering half of `WatchOrdered`. */
  lemma WatchOrderedItems(events: seq<Event>)
    ensures var t := Watch(false, AgentState.NotReady, events);
      && (forall i, j :: 0 <= i < j < |t.items| ==> Progress(t.items[i]) < Progress(t.items[j]))
      && (forall i :: 0 <= i < |t.items| ==> 0 < Progress(t.items[i]))
      && (t.end == Completed <==> |t.items| > 0 && t.items[|t.items| - 1] == Shutdown)
  {
    WatchOrdered(events);
  }

  /** The error half of `WatchOrdered`. */
  lemma WatchErrors(events: seq<Event>)
    ensures var polls := PolledOutcomes(false, events);
      var ok := StatusPolling.Readings(polls);
      Watch(false, AgentState.NotReady, events).end.Errored? <==>
        |ok| < |polls| && Run(AgentState.NotReady, ok).end == Open
  {
    WatchOrdered(events);
  }

  /** States past `NotReady` in increasing order stay in order behind it. */
  lemma AfterNotReady(items: seq<AgentState>)
    requires forall i, j :: 0 <= i < j < |items| ==> Progress(items[i]) < Progress(items[j])
    requires forall i :: 0 <= i < |items| ==> 0 < Progress(items[i])
    ensures var all := [AgentState.NotReady] + items;
      && (forall i, j :: 0 <= i < j < |all| ==> Progress(all[i]) < Progress(all[j]))
      && (items != [] ==> all[|all| - 1] == items[|items| - 1])
  {
    var all := [AgentState.NotReady] + items;
    forall i, j | 0 <= i < j < |all| ensures Progress(all[i]) < Progress(all[j]) {
      assert all[j] == items[j - 1];
      if i > 0 {
        assert all[i] == items[i - 1];
      }
    }
  }

  /** Before the first trigger nothing but `NotReady` is seen. */
  lemma QuietUntilStarted(events: seq<Event>)
    requires StartPolling !in events
    ensures AgentStateStream(events) == Trace([AgentState.NotReady], Open)
  {
    WatchIsRunAfterStart(false, AgentState.NotReady, events);
    NoTriggerNoPolls(events);
  }

  lemma {:induction false} NoTriggerNoPolls(events: seq<Event>)
    requires StartPolling !in events
    ensures PolledOutcomes(false, events) == []
    decreases |events|
  {
    if events != [] {
      assert events[0] != StartPolling;
      NoTriggerNoPolls(events[1..]);
    }
  }
}
