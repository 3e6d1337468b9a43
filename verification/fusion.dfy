/** The service-backed controller's fusion of the three status streams: the latest
    application, service and agent statuses are combined, consecutive repeats are
    suppressed, and each distinct triple is judged by a priority-ordered rule that
    may announce readiness, abort the dependent streams or start them. */
module Fusion {
  import opened Wrappers
  import opened Streams
  import opened Status

  datatype Triple = Triple(application: ApplicationStatus, service: ServiceStatus, agent: AgentStatus)

  predicate AllReady(t: Triple) {
    t.application == ApplicationStatus.Ready && t.service == ServiceStatus.Ready && t.agent == AgentStatus.Ready
  }

  predicate AllFailed(t: Triple) {
    t.application == ApplicationStatus.Failed && t.service == ServiceStatus.Failed && t.agent == AgentStatus.Failed
  }

  /** What judging one triple does: complete the ready signal with `true` or `false`,
      fire the application-failed trigger, fire the start trigger, or nothing. */
  datatype Signal = ReadyTrue | ReadyFalse | AbortDependents | StartDependents | NoSignal

  /** The rules are tried in order and the first that applies is the only one that runs. */
  function Decide(t: Triple): (s: Signal)
    ensures s == ReadyTrue <==> AllReady(t)
    ensures s == ReadyFalse <==> AllFailed(t)
    ensures s == AbortDependents <==> t.application == ApplicationStatus.Failed && !AllFailed(t)
    ensures s == StartDependents <==> t.application == ApplicationStatus.Creating
    ensures s == NoSignal <==>
              t.application != ApplicationStatus.Creating && t.application != ApplicationStatus.Failed && !AllReady(t)
  {
    if AllReady(t) then ReadyTrue
    else if AllFailed(t) then ReadyFalse
    else if t.application == ApplicationStatus.Failed then AbortDependents
    else if t.application == ApplicationStatus.Creating then StartDependents
    else NoSignal
  }

  /** The value the ready signal carries for a triple, if judging it completes that signal. */
  function Verdict(t: Triple): (v: Option<bool>)
    ensures v == Some(true) <==> AllReady(t)
    ensures v == Some(false) <==> AllFailed(t)
  {
    match Decide(t)
    case ReadyTrue => Some(true)
    case ReadyFalse => Some(false)
    case _ => None
  }

  // Combining the latest statuses

  /** A new value from one of the three status streams. */
  datatype Update = Application(a: ApplicationStatus) | Service(s: ServiceStatus) | Agent(g: AgentStatus)

  /** The latest value of each stream, once it has one. */
  datatype Latest = Latest(application: Option<ApplicationStatus>, service: Option<ServiceStatus>,
                           agent: Option<AgentStatus>)
  {
    predicate Complete() {
      application.Some? && service.Some? && agent.Some?
    }

    function Current(): Triple
      requires Complete()
    {
      Triple(application.value, service.value, agent.value)
    }

    function With(u: Update): (l: Latest)
      ensures u.Application? ==> l.application == Some(u.a) && l.service == service && l.agent == agent
      ensures u.Service? ==> l.service == Some(u.s) && l.application == application && l.agent == agent
      ensures u.Agent? ==> l.agent == Some(u.g) && l.application == application && l.service == service
      ensures Complete() ==> l.Complete()
    {
      match u
      case Application(a) => this.(application := Some(a))
      case Service(s) => this.(service := Some(s))
      case Agent(g) => this.(agent := Some(g))
    }
  }

  /** Two triples differ at most in the component one update sets. */
  predicate OneApart(t: Triple, u: Triple) {
    (t.service == u.service && t.agent == u.agent)
    || (t.application == u.application && t.agent == u.agent)
    || (t.application == u.application && t.service == u.service)
  }

  /** `CombineLatest`: after every update, once each stream has a value, the triple of
      the latest values. */
  function Combine(latest: Latest, updates: seq<Update>): (r: seq<Triple>)
    ensures |r| <= |updates|
    ensures latest.Complete() ==> |r| == |updates|
    ensures latest.Complete() && |r| > 0 ==> OneApart(latest.Current(), r[0])
    ensures forall i :: 0 < i < |r| ==> OneApart(r[i - 1], r[i])
    decreases |updates|
  {
    if updates == [] then []
    else
      var next := latest.With(updates[0]);
      var rest := Combine(next, updates[1..]);
      if next.Complete() then [next.Current()] + rest else rest
  }

  /** The latest values after a run of updates. */
  function After(latest: Latest, updates: seq<Update>): Latest
    decreases |updates|
  {
    if updates == [] then latest else After(latest.With(updates[0]), updates[1..])
  }

  /** The combined stream's newest triple is always the triple of the latest values,
      and it has one as soon as every stream has a value. */
  lemma {:induction false} CombineTracksLatest(latest: Latest, updates: seq<Update>)
    ensures var r := Combine(latest, updates);
      var final := After(latest, updates);
      (|r| > 0 ==> final.Complete() && r[|r| - 1] == final.Current())
      && (final.Complete() && !latest.Complete() ==> |r| > 0)
      && (latest.Complete() ==> final.Complete())
    decreases |updates|
  {
    if updates != [] {
      var next := latest.With(updates[0]);
      CombineTracksLatest(next, updates[1..]);
    }
  }

  /** Combining two runs of updates one after the other: the second run resumes from
      the latest values the first one left. */
  lemma {:induction false} CombineAppend(latest: Latest, a: seq<Update>, b: seq<Update>)
    ensures Combine(latest, a + b) == Combine(latest, a) + Combine(After(latest, a), b)
    ensures After(latest, a + b) == After(After(latest, a), b)
    decreases |a|
  {
    if a == [] {
      assert a + b == b;
    } else {
      assert (a + b)[0] == a[0] && (a + b)[1..] == a[1..] + b;
      CombineAppend(latest.With(a[0]), a[1..], b);
    }
  }

  /** `CombineLatest` one update at a time: the update sets its stream's latest value,
      and once every stream has a value the triple of latest values is emitted. With
      `Combine(latest, []) == []` this determines every triple, in order. */
  lemma CombineSnoc(latest: Latest, updates: seq<Update>, u: Update)
    ensures var next := After(latest, updates).With(u);
      && After(latest, updates + [u]) == next
      && Combine(latest, updates + [u])
         == Combine(latest, updates) + (if next.Complete() then [next.Current()] else [])
  {
    CombineAppend(latest, updates, [u]);
    assert [u][1..] == [];
  }

  /** Once every stream has a value, each further update yields exactly one triple,
      appended after the ones already emitted. */
  lemma CombineOncePerUpdate(latest: Latest, updates: seq<Update>, k: nat)
    requires k <= |updates| && After(latest, updates[..k]).Complete()
    ensures Combine(latest, updates[..k]) <= Combine(latest, updates)
    ensures |Combine(latest, updates)| == |Combine(latest, updates[..k])| + (|updates| - k)
  {
    CombineAppend(latest, updates[..k], updates[k..]);
    assert updates[..k] + updates[k..] == updates;
  }

  // The one-shot signals

  /** A subject as its subscribers see it: the values it delivered, and whether it has
      completed (after which further values are dropped). */
  datatype Subject<V> = Subject(values: seq<V>, completed: bool)

  function OnNext<V>(s: Subject<V>, v: V): Subject<V> {
    if s.completed then s else s.(values := s.values + [v])
  }

  function OnCompleted<V>(s: Subject<V>): Subject<V> {
    s.(completed := true)
  }

  /** Every use of a signal delivers one value and completes it at once. */
  function Fire<V>(s: Subject<V>, v: V): (r: Subject<V>)
    ensures r.completed
    ensures s.completed ==> r == s
    ensures !s.completed ==> r.values == s.values + [v]
  {
    OnCompleted(OnNext(s, v))
  }

  /** A signal that has fired delivered exactly one value; one that has not, none. */
  predicate OneShot<V>(s: Subject<V>) {
    |s.values| == (if s.completed then 1 else 0)
  }

  datatype Signals = Signals(ready: Subject<bool>, applicationFailed: Subject<()>, startPolling: Subject<()>)
  {
    predicate Valid() {
      OneShot(ready) && OneShot(applicationFailed) && OneShot(startPolling)
    }
  }

  const Fresh := Signals(Subject([], false), Subject([], false), Subject([], false))

  function Evaluate(s: Signals, t: Triple): (r: Signals)
    requires s.Valid()
    ensures r.Valid()
  {
    match Decide(t)
    case ReadyTrue => s.(ready := Fire(s.ready, true))
    case ReadyFalse => s.(ready := Fire(s.ready, false))
    case AbortDependents => s.(applicationFailed := Fire(s.applicationFailed, ()))
    case StartDependents => s.(startPolling := Fire(s.startPolling, ()))
    case NoSignal => s
  }

  /** Judging a run of triples in order. */
  function Apply(s: Signals, ts: seq<Triple>): (r: Signals)
    requires s.Valid()
    ensures r.Valid()
    decreases |ts|
  {
    if ts == [] then s else Apply(Evaluate(s, ts[0]), ts[1..])
  }

  /** The fused stream: the combined triples with consecutive repeats dropped. */
  function Judged(updates: seq<Update>): (ts: seq<Triple>)
    ensures NoAdjacentDuplicates(ts)
    ensures |ts| <= |updates|
  {
    DistinctUntilChanged(Combine(Latest(None, None, None), updates))
  }

  /** The fused stream one update at a time: a triple is judged when every stream has
      a value and the triple differs from the one combined before it. */
  lemma JudgedSnoc(updates: seq<Update>, u: Update)
    ensures var c := Combine(Latest(None, None, None), updates);
      var next := After(Latest(None, None, None), updates).With(u);
      Judged(updates + [u])
        == Judged(updates)
           + (if next.Complete() && (c == [] || c[|c| - 1] != next.Current()) then [next.Current()] else [])
  {
    var c := Combine(Latest(None, None, None), updates);
    var next := After(Latest(None, None, None), updates).With(u);
    CombineSnoc(Latest(None, None, None), updates, u);
    if next.Complete() {
      DistinctUntilChangedSnoc(c, next.Current());
    } else {
      assert c + [] == c;
    }
  }

  function Fuse(updates: seq<Update>): (r: Signals)
    ensures r.Valid()
  {
    Apply(Fresh, Judged(updates))
  }

  /** Once the ready signal has completed, judging more triples leaves it alone. */
  lemma {:induction false} ApplyKeepsReady(s: Signals, ts: seq<Triple>)
    requires s.Valid() && s.ready.completed
    ensures Apply(s, ts).ready == s.ready
    decreases |ts|
  {
    if ts != [] {
      ApplyKeepsReady(Evaluate(s, ts[0]), ts[1..]);
    }
  }

  /** The ready signal fires exactly when some triple has a verdict. */
  lemma {:induction false} ApplyFiresReady(s: Signals, ts: seq<Triple>)
    requires s.Valid()
    ensures Apply(s, ts).ready.completed <==>
              s.ready.completed || exists i :: 0 <= i < |ts| && Verdict(ts[i]).Some?
    decreases |ts|
  {
    if ts != [] {
      ApplyFiresReady(Evaluate(s, ts[0]), ts[1..]);
      if exists i :: 0 <= i < |ts| && Verdict(ts[i]).Some? {
        var i :| 0 <= i < |ts| && Verdict(ts[i]).Some?;
        if i > 0 { assert ts[1..][i - 1] == ts[i]; }
      }
      if exists i :: 0 <= i < |ts[1..]| && Verdict(ts[1..][i]).Some? {
        var i :| 0 <= i < |ts[1..]| && Verdict(ts[1..][i]).Some?;
        assert ts[i + 1] == ts[1..][i];
      }
    }
  }

  /** The ready signal carries the verdict of the first triple that has one. */
  lemma {:induction false} ApplyReadyIsFirstVerdict(s: Signals, ts: seq<Triple>, i: nat)
    requires s.Valid() && !s.ready.completed
    requires i < |ts| && Verdict(ts[i]).Some?
    requires forall j :: 0 <= j < i ==> Verdict(ts[j]).None?
    ensures Apply(s, ts).ready.values == [Verdict(ts[i]).value]
    decreases i
  {
    var next := Evaluate(s, ts[0]);
    if i == 0 {
      ApplyKeepsReady(next, ts[1..]);
    } else {
      assert ts[1..][i - 1] == ts[i];
      assert forall j :: 0 <= j < i - 1 ==> Verdict(ts[1..][j]).None? by {
        forall j | 0 <= j < i - 1 ensures Verdict(ts[1..][j]).None? {
          assert ts[1..][j] == ts[j + 1];
        }
      }
      ApplyReadyIsFirstVerdict(next, ts[1..], i - 1);
    }
  }

  /** Each trigger fires exactly when some triple calls for it, and then it stays fired. */
  lemma {:induction false} ApplyFiresTriggers(s: Signals, ts: seq<Triple>)
    requires s.Valid()
    ensures Apply(s, ts).applicationFailed.completed <==>
              s.applicationFailed.completed || exists i :: 0 <= i < |ts| && Decide(ts[i]) == AbortDependents
    ensures Apply(s, ts).startPolling.completed <==>
              s.startPolling.completed || exists i :: 0 <= i < |ts| && Decide(ts[i]) == StartDependents
    decreases |ts|
  {
    if ts != [] {
      ApplyFiresTriggers(Evaluate(s, ts[0]), ts[1..]);
      DecidedSplits(ts, AbortDependents);
      DecidedSplits(ts, StartDependents);
    }
  }

  /** Some triple of a non-empty run calls for `k` iff the first does or one of the rest. */
  lemma DecidedSplits(ts: seq<Triple>, k: Signal)
    requires ts != []
    ensures (exists i :: 0 <= i < |ts| && Decide(ts[i]) == k) <==>
              Decide(ts[0]) == k || exists i :: 0 <= i < |ts[1..]| && Decide(ts[1..][i]) == k
  {
    if exists i :: 0 <= i < |ts| && Decide(ts[i]) == k {
      var i :| 0 <= i < |ts| && Decide(ts[i]) == k;
      if i > 0 { assert ts[1..][i - 1] == ts[i]; }
    }
    if exists i :: 0 <= i < |ts[1..]| && Decide(ts[1..][i]) == k {
      var i :| 0 <= i < |ts[1..]| && Decide(ts[1..][i]) == k;
      assert ts[i + 1] == ts[1..][i];
    }
  }

  /** For the whole fused stream: the ready signal holds at most the verdict of the
      first judged triple that has one, and the triggers fire when a judged triple
      calls for them. */
  lemma FuseSignals(updates: seq<Update>)
    ensures var ts := Judged(updates);
      var r := Fuse(updates);
      (r.ready.completed <==> exists i :: 0 <= i < |ts| && Verdict(ts[i]).Some?)
      && (r.applicationFailed.completed <==> exists i :: 0 <= i < |ts| && Decide(ts[i]) == AbortDependents)
      && (r.startPolling.completed <==> exists i :: 0 <= i < |ts| && Decide(ts[i]) == StartDependents)
      && |r.ready.values| <= 1 && |r.applicationFailed.values| <= 1 && |r.startPolling.values| <= 1
  {
    ApplyFiresReady(Fresh, Judged(updates));
    ApplyFiresTriggers(Fresh, Judged(updates));
  }

  /** The three streams reaching `Ready` one after another announce readiness. */
  lemma ReadyExample()
    ensures Fuse([Application(ApplicationStatus.Ready), Service(ServiceStatus.Ready), Agent(AgentStatus.Ready)]).ready
         == Subject([true], true)
  {
    var updates := [Application(ApplicationStatus.Ready), Service(ServiceStatus.Ready), Agent(AgentStatus.Ready)];
    var t := Triple(ApplicationStatus.Ready, ServiceStatus.Ready, AgentStatus.Ready);
    assert Combine(Latest(None, None, None), updates) == [t];
    assert Judged(updates) == [t];
  }

  // Stopping

  /** Stop's completion and the fused stream's completion handler meet at an
      auto-reset event: the handler sets it, a waiting completion consumes it and then
      disposes of the polling. */
  datatype StopState = StopState(eventSet: bool, waiters: nat, polling: bool, released: nat)

  /** The fused stream completes or fails; Stop's completion starts waiting. The
      subscription has no error handler, so a failure never sets the event. */
  datatype StopEvent = StreamsCompleted | StreamsFailed | AwaitCompletion

  function StopStep(st: StopState, e: StopEvent): (r: StopState)
    ensures r.released == st.released || r.released == st.released + 1
    ensures r.released > st.released ==> !r.polling
    ensures r.released > st.released && e == AwaitCompletion ==> st.eventSet && !r.eventSet
    ensures r.released > st.released && e == StreamsCompleted ==> st.waiters > 0
    ensures e == StreamsFailed ==> r == st
  {
    match e
    case StreamsCompleted =>
      if st.waiters > 0 then st.(waiters := st.waiters - 1, polling := false, released := st.released + 1)
      else st.(eventSet := true)
    case StreamsFailed => st
    case AwaitCompletion =>
      if st.eventSet then st.(eventSet := false, polling := false, released := st.released + 1)
      else st.(waiters := st.waiters + 1)
  }

  function StopRun(st: StopState, events: seq<StopEvent>): (r: StopState)
    decreases |events|
  {
    if events == [] then st else StopRun(StopStep(st, events[0]), events[1..])
  }

  const Started := StopState(false, 0, true, 0)

  /** Each release of a completion is paid for by one completion of the fused stream
      and one waiting completion; the signal is never counted twice. */
  lemma {:induction false} StopRunAccounts(st: StopState, events: seq<StopEvent>)
    ensures var r := StopRun(st, events);
      r.released + r.waiters == st.released + st.waiters + multiset(events)[AwaitCompletion]
      && r.released + (if r.eventSet then 1 else 0)
         <= st.released + (if st.eventSet then 1 else 0) + multiset(events)[StreamsCompleted]
      && r.released >= st.released
      && (r.released > st.released ==> !r.polling)
      && (r.released == st.released ==> r.polling == st.polling)
    decreases |events|
  {
    if events != [] {
      assert events == [events[0]] + events[1..];
      StopRunAccounts(StopStep(st, events[0]), events[1..]);
    }
  }

  /** Until the fused stream completes, no completion of Stop is released and polling
      goes on, in particular after the fused stream has failed; once completion and
      waiting have both happened, in either order, polling has been cleared. */
  lemma StopWaitsForStreams(events: seq<StopEvent>)
    ensures StreamsCompleted !in events ==> StopRun(Started, events).released == 0 && StopRun(Started, events).polling
    ensures StopRun(Started, [StreamsCompleted, AwaitCompletion]).released == 1
    ensures !StopRun(Started, [StreamsCompleted, AwaitCompletion]).polling
    ensures StopRun(Started, [AwaitCompletion, StreamsCompleted]).released == 1
    ensures !StopRun(Started, [AwaitCompletion, StreamsCompleted]).polling
    ensures StopRun(Started, [StreamsFailed, AwaitCompletion]).released == 0
    ensures StopRun(Started, [AwaitCompletion, StreamsFailed]).waiters == 1
  {
    StopRunAccounts(Started, events);
    if StreamsCompleted !in events {
      assert multiset(events)[StreamsCompleted] == 0;
    }
  }
}
