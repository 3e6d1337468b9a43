/** The agent-status machine of the service-backed client. It watches the pairs
    (latest container-log answer, latest log line) and records how far the build
    agent has come: Unknown, then NotReady, then Starting, then Ready. Each advance
    is announced once; once the agent is running, losing its log means it is gone. */
module Agent {
  import opened Wrappers
  import opened Strings
  import opened Streams
  import opened Status

  /** The line the pipelines agent prints once it accepts work. */
  const ListeningMarker: string := "Listening for Jobs"

  /** What one pair does: the recorded state afterwards, what is announced, and
      whether the stream ends. */
  datatype Step = Step(state: AgentStatus, emitted: Option<AgentStatus>, completes: bool)

  /** How far along the start-up sequence a status lies. */
  function Progress(s: AgentStatus): nat {
    match s
    case Unknown => 0
    case NotReady => 1
    case Starting => 2
    case Ready => 3
    case NotFound => 4
    case Failed => 5
  }

  /** The states the machine can record: it never records NotFound or Failed. */
  predicate Recordable(s: AgentStatus) {
    Progress(s) <= 3
  }

  function AgentStep(last: AgentStatus, response: LogResponse, line: string): (r: Step)
    ensures r.completes <==> last != AgentStatus.Unknown && last != NotReady && response != Output
    ensures r.completes ==> r.state == last && r.emitted == Some(AgentStatus.NotFound)
    ensures r.state != last ==> r.emitted == Some(r.state) && Progress(last) < Progress(r.state)
    ensures r.state == last && !r.completes ==> r.emitted == None
    ensures r.state == NotReady && last != NotReady <==> last == AgentStatus.Unknown && response == ResourceNotReady
    ensures r.state == Starting && last != Starting <==>
              (last == AgentStatus.Unknown || last == NotReady) && response == Output
    ensures r.state == AgentStatus.Ready && last != AgentStatus.Ready <==>
              last == Starting && response == Output && Contains(line, ListeningMarker)
  {
    if last == AgentStatus.Unknown && response == ResourceNotReady then
      Step(NotReady, Some(NotReady), false)
    else if (last == AgentStatus.Unknown || last == NotReady) && response == Output then
      Step(Starting, Some(Starting), false)
    else if last == Starting && response == Output && Contains(line, ListeningMarker) then
      Step(AgentStatus.Ready, Some(AgentStatus.Ready), false)
    else if last != AgentStatus.Unknown && last != NotReady && response != Output then
      Step(last, Some(AgentStatus.NotFound), true)
    else
      Step(last, None, false)
  }

  /** The announcements of a prefix (none when nothing was announced). */
  function Announced(o: Option<AgentStatus>): seq<AgentStatus> {
    if o.Some? then [o.value] else []
  }

  /** The agent stream of one subscription: the pairs are fed in order from the
      recorded state `last` until a step completes the stream. */
  function Run(last: AgentStatus, pairs: seq<(LogResponse, string)>): (t: Trace<AgentStatus>)
    requires Recordable(last)
    ensures t.end == Open || t.end == Completed
    ensures forall i, j :: 0 <= i < j < |t.items| ==> Progress(t.items[i]) < Progress(t.items[j])
    ensures forall i :: 0 <= i < |t.items| ==> Progress(last) < Progress(t.items[i])
    ensures t.end == Completed <==> |t.items| > 0 && t.items[|t.items| - 1] == AgentStatus.NotFound
    ensures forall i :: 0 <= i < |t.items| ==> t.items[i] != AgentStatus.Failed
    decreases |pairs|
  {
    if pairs == [] then Trace([], Open)
    else
      var r := AgentStep(last, pairs[0].0, pairs[0].1);
      if r.completes then Trace([AgentStatus.NotFound], Completed)
      else
        var rest := Run(r.state, pairs[1..]);
        AnnouncedThenRest(last, r, rest);
        NeverFailed(r, rest.items);
        Trace(Announced(r.emitted) + rest.items, rest.end)
  }

  /** A recordable announcement followed by items that are not `Failed` holds no `Failed`. */
  lemma NeverFailed(r: Step, items: seq<AgentStatus>)
    requires r.emitted.Some? ==> Recordable(r.emitted.value)
    requires forall i :: 0 <= i < |items| ==> items[i] != AgentStatus.Failed
    ensures forall i :: 0 <= i < |Announced(r.emitted) + items| ==> (Announced(r.emitted) + items)[i] != AgentStatus.Failed
  {
    var all := Announced(r.emitted) + items;
    var h := |Announced(r.emitted)|;
    forall i | 0 <= i < |all| ensures all[i] != AgentStatus.Failed {
      if i >= h {
        assert all[i] == items[i - h];
      }
    }
  }

  /** An announcement of the step's new state, followed by a run that starts from it,
      is again a run from `last`. */
  lemma AnnouncedThenRest(last: AgentStatus, r: Step, rest: Trace<AgentStatus>)
    requires !r.completes && Recordable(r.state)
    requires r.state != last ==> r.emitted == Some(r.state) && Progress(last) < Progress(r.state)
    requires r.state == last ==> r.emitted == None
    requires forall i, j :: 0 <= i < j < |rest.items| ==> Progress(rest.items[i]) < Progress(rest.items[j])
    requires forall i :: 0 <= i < |rest.items| ==> Progress(r.state) < Progress(rest.items[i])
    requires rest.end == Completed <==> |rest.items| > 0 && rest.items[|rest.items| - 1] == AgentStatus.NotFound
    ensures var all := Announced(r.emitted) + rest.items;
      && (forall i, j :: 0 <= i < j < |all| ==> Progress(all[i]) < Progress(all[j]))
      && (forall i :: 0 <= i < |all| ==> Progress(last) < Progress(all[i]))
      && (rest.end == Completed <==> |all| > 0 && all[|all| - 1] == AgentStatus.NotFound)
  {
    var all := Announced(r.emitted) + rest.items;
    var h := |Announced(r.emitted)|;
    forall i, j | 0 <= i < j < |all| ensures Progress(all[i]) < Progress(all[j]) {
      assert all[j] == rest.items[j - h];
      if i >= h {
        assert all[i] == rest.items[i - h];
      }
    }
    forall i | 0 <= i < |all| ensures Progress(last) < Progress(all[i]) {
      if i >= h {
        assert all[i] == rest.items[i - h];
      }
    }
    if rest.items != [] {
      assert all[|all| - 1] == rest.items[|rest.items| - 1];
    }
  }
}
