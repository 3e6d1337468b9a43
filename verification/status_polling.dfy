/** The application and service status streams. Each poll's reading passes through
    `DistinctUntilChanged` (on the status together with the body it came from), the
    first `NotFound` stops the polling, a rethrown failure ends the stream with an
    error, and the stream as a whole starts with `Unknown`. */
module StatusPolling {
  import opened Wrappers
  import opened Streams
  import opened Classify
  import Status
  import ScenarioStatus

  /** The text an error carries. */
  function Message(e: ApiError): string {
    match e
    case ErrorModel(_, code) => code
    case OtherError(message) => message
  }

  /** One poll's effect on the stream, given the reading let through last: a
      reading equal to it is dropped; otherwise its status is emitted, and a
      `notFound` status ends the polling. */
  datatype Emission<T> = Emission(items: seq<T>, stops: bool)

  function StatusStep<T(==)>(prev: Option<StatusReading<T>>, reading: StatusReading<T>, notFound: T)
    : (e: Emission<T>)
    ensures e.stops <==> prev != Some(reading) && reading.status == notFound
    ensures e.items == if prev == Some(reading) then [] else [reading.status]
  {
    if prev == Some(reading) then Emission([], false)
    else Emission([reading.status], reading.status == notFound)
  }

  /** The statuses a run of polls adds to the stream, resuming after `prev`. */
  function Shape<T(==)>(prev: Option<StatusReading<T>>, polls: seq<Outcome<StatusReading<T>>>, notFound: T)
    : (t: Trace<T>)
    ensures |t.items| <= |polls|
    ensures forall i :: 0 <= i < |t.items| - 1 ==> t.items[i] != notFound
    ensures t.end == Completed <==> |t.items| > 0 && t.items[|t.items| - 1] == notFound
    ensures t.end.Errored? ==> exists i :: 0 <= i < |polls| && polls[i].Threw?
    decreases |polls|
  {
    if polls == [] then Trace([], Open)
    else match polls[0]
      case Threw(e) => Trace([], Errored(Message(e)))
      case Returned(reading) =>
        var e := StatusStep(prev, reading, notFound);
        if e.stops then Trace(e.items, Completed)
        else
          var rest := Shape(if e.items == [] then prev else Some(reading), polls[1..], notFound);
          Trace(e.items + rest.items, rest.end)
  }

  /** The readings the stream sees: the polls before the first failure. */
  function Readings<T>(polls: seq<Outcome<T>>): (r: seq<T>)
    ensures |r| <= |polls|
    ensures forall i :: 0 <= i < |r| ==> polls[i] == Returned(r[i])
    ensures |r| < |polls| ==> polls[|r|].Threw?
    decreases |polls|
  {
    if polls == [] || polls[0].Threw? then [] else [polls[0].value] + Readings(polls[1..])
  }

  /** Polls that all return yield every value as a reading. */
  lemma ReadingsOfReturned<T>(xs: seq<T>)
    ensures Readings(seq(|xs|, i requires 0 <= i < |xs| => Returned(xs[i]))) == xs
  {
  }

  /** A stream fed by polls that may fail, given the run `run` over the readings
      before the first failure: that failure ends the stream with its message, unless
      the run has already ended. */
  function EndedByFailure<T, P>(run: Trace<T>, polls: seq<Outcome<P>>): (t: Trace<T>)
    ensures t.items == run.items
    ensures run.end != Open ==> t.end == run.end
    ensures t.end.Errored? && run.end == Open ==> |Readings(polls)| < |polls|
    ensures run.end == Open && |Readings(polls)| < |polls| ==>
              t.end == Errored(Message(polls[|Readings(polls)|].error))
    ensures run.end == Open && |Readings(polls)| == |polls| ==> t.end == Open
  {
    var ok := Readings(polls);
    if run.end == Open && |ok| < |polls| then Trace(run.items, Errored(Message(polls[|ok|].error)))
    else run
  }

  function Statuses<T>(rs: seq<StatusReading<T>>): (r: seq<T>)
    ensures |r| == |rs|
    ensures forall i :: 0 <= i < |rs| ==> r[i] == rs[i].status
  {
    seq(|rs|, i requires 0 <= i < |rs| => rs[i].status)
  }

  /** The stopping test of `TakeUntil`: the reading has the given status. */
  function WithStatus<T(==)>(status: T): StatusReading<T> -> bool {
    (r: StatusReading<T>) => r.status == status
  }

  /** The readings `DistinctUntilChanged` and then `TakeUntil` let through. */
  function Kept<T(==)>(prev: Option<StatusReading<T>>, readings: seq<StatusReading<T>>, notFound: T)
    : seq<StatusReading<T>>
  {
    TakeThrough(DistinctAfter(prev, readings), WithStatus(notFound))
  }

  predicate Stopped<T(==)>(kept: seq<StatusReading<T>>, notFound: T) {
    |kept| > 0 && kept[|kept| - 1].status == notFound
  }

  /** The same stream written with the operators the client composes:
      `DistinctUntilChanged`, then `TakeUntil` raised by the first `notFound`, and
      an error if a failure comes before that. */
  function Operators<T(==)>(prev: Option<StatusReading<T>>, polls: seq<Outcome<StatusReading<T>>>, notFound: T)
    : Trace<T>
  {
    var readings := Readings(polls);
    var kept := Kept(prev, readings, notFound);
    Trace(Statuses(kept),
          if Stopped(kept, notFound) then Completed
          else if |readings| < |polls| then Errored(Message(polls[|readings|].error))
          else Open)
  }

  lemma OperatorsDuplicate<T>(prev: Option<StatusReading<T>>, polls: seq<Outcome<StatusReading<T>>>, notFound: T)
    requires polls != [] && polls[0].Returned? && prev == Some(polls[0].value)
    ensures Operators(prev, polls, notFound) == Operators(prev, polls[1..], notFound)
  {
    var rest := polls[1..];
    assert Readings(polls) == [polls[0].value] + Readings(rest);
    assert DistinctAfter(prev, Readings(polls)) == DistinctAfter(prev, Readings(rest));
  }

  lemma OperatorsNotFound<T>(prev: Option<StatusReading<T>>, polls: seq<Outcome<StatusReading<T>>>, notFound: T)
    requires polls != [] && polls[0].Returned? && prev != Some(polls[0].value)
    requires polls[0].value.status == notFound
    ensures Operators(prev, polls, notFound) == Trace([notFound], Completed)
  {
    var reading := polls[0].value;
    var rest := polls[1..];
    assert Readings(polls) == [reading] + Readings(rest);
    var d := DistinctAfter(Some(reading), Readings(rest));
    assert DistinctAfter(prev, Readings(polls)) == [reading] + d;
    assert Kept(prev, Readings(polls), notFound) == [reading];
  }

  lemma KeptNew<T>(prev: Option<StatusReading<T>>, reading: StatusReading<T>,
                   rest: seq<StatusReading<T>>, notFound: T)
    requires prev != Some(reading) && reading.status != notFound
    ensures Kept(prev, [reading] + rest, notFound) == [reading] + Kept(Some(reading), rest, notFound)
  {
    var d := DistinctAfter(Some(reading), rest);
    assert ([reading] + rest)[1..] == rest;
    assert DistinctAfter(prev, [reading] + rest) == [reading] + d;
    assert ([reading] + d)[1..] == d;
  }

  lemma ReadingsCons<T>(polls: seq<Outcome<T>>)
    requires polls != [] && polls[0].Returned?
    ensures Readings(polls) == [polls[0].value] + Readings(polls[1..])
    ensures |Readings(polls)| < |polls| <==> |Readings(polls[1..])| < |polls[1..]|
    ensures |Readings(polls)| < |polls| ==> polls[|Readings(polls)|] == polls[1..][|Readings(polls[1..])|]
  {
  }

  lemma OperatorsNew<T>(prev: Option<StatusReading<T>>, polls: seq<Outcome<StatusReading<T>>>, notFound: T)
    requires polls != [] && polls[0].Returned? && prev != Some(polls[0].value)
    requires polls[0].value.status != notFound
    ensures var tail := Operators(Some(polls[0].value), polls[1..], notFound);
      Operators(prev, polls, notFound) == Trace([polls[0].value.status] + tail.items, tail.end)
  {
    var reading := polls[0].value;
    var rest := polls[1..];
    ReadingsCons(polls);
    var later := Readings(rest);
    var kept := Kept(Some(reading), later, notFound);
    KeptNew(prev, reading, later, notFound);
    StatusesCons(reading, kept);
    assert Stopped([reading] + kept, notFound) <==> Stopped(kept, notFound) by {
      if kept != [] {
        assert ([reading] + kept)[|kept|] == kept[|kept| - 1];
      }
    }
  }

  lemma StatusesCons<T>(r: StatusReading<T>, rs: seq<StatusReading<T>>)
    ensures Statuses([r] + rs) == [r.status] + Statuses(rs)
  {
    assert forall i :: 0 < i <= |rs| ==> ([r] + rs)[i] == rs[i - 1];
  }

  /** The step-by-step stream is exactly the operator chain. */
  lemma {:induction false} ShapeIsOperatorChain<T>(prev: Option<StatusReading<T>>,
                                                   polls: seq<Outcome<StatusReading<T>>>, notFound: T)
    ensures Shape(prev, polls, notFound) == Operators(prev, polls, notFound)
    decreases |polls|
  {
    if polls != [] && polls[0].Returned? {
      var reading := polls[0].value;
      if prev == Some(reading) {
        ShapeIsOperatorChain(prev, polls[1..], notFound);
        OperatorsDuplicate(prev, polls, notFound);
      } else if reading.status == notFound {
        OperatorsNotFound(prev, polls, notFound);
      } else {
        ShapeIsOperatorChain(Some(reading), polls[1..], notFound);
        OperatorsNew(prev, polls, notFound);
      }
    }
  }

  /** Once the stream has ended (a `notFound` or a failure), later polls change nothing. */
  lemma {:induction false} ShapeEndsPolling<T>(prev: Option<StatusReading<T>>,
                                               polls: seq<Outcome<StatusReading<T>>>,
                                               later: seq<Outcome<StatusReading<T>>>, notFound: T)
    requires Shape(prev, polls, notFound).end != Open
    ensures Shape(prev, polls + later, notFound) == Shape(prev, polls, notFound)
    decreases |polls|
  {
    assert (polls + later)[0] == polls[0];
    if polls[0].Returned? {
      var e := StatusStep(prev, polls[0].value, notFound);
      if !e.stops {
        assert (polls + later)[1..] == polls[1..] + later;
        ShapeEndsPolling(if e.items == [] then prev else Some(polls[0].value), polls[1..], later, notFound);
      }
    }
  }

  /** Duplicates are judged on the whole reading: the same reading twice is emitted
      once, but the same status with a changed body is emitted again. */
  lemma RepeatsFollowTheBody<T>(r1: StatusReading<T>, r2: StatusReading<T>, notFound: T)
    requires r1.status == r2.status && r1.status != notFound
    ensures Shape(None, [Returned(r1), Returned(r2)], notFound).items ==
              if r1 == r2 then [r1.status] else [r1.status, r1.status]
  {
    var polls := [Returned(r1), Returned(r2)];
    assert polls[1..] == [Returned(r2)];
    assert polls[1..][1..] == [];
  }

  /** A status stream: `unknown` first, then what the polls add. */
  function PollStream<T(==)>(unknown: T, notFound: T, polls: seq<Outcome<StatusReading<T>>>): (t: Trace<T>)
    requires unknown != notFound
    ensures |t.items| > 0 && t.items[0] == unknown
    ensures forall i :: 0 <= i < |t.items| - 1 ==> t.items[i] != notFound
    ensures t.end == Completed <==> t.items[|t.items| - 1] == notFound
  {
    var rest := Shape(None, polls, notFound);
    Trace([unknown] + rest.items, rest.end)
  }

  /** The application status stream of the service-backed client, one entry of
      `calls` per query. */
  function ApplicationStream(calls: seq<Outcome<ResourceBody>>): (t: Trace<Status.ApplicationStatus>)
    ensures |t.items| > 0 && t.items[0] == Status.ApplicationStatus.Unknown
    ensures forall i :: 0 <= i < |t.items| - 1 ==> t.items[i] != Status.ApplicationStatus.NotFound
    ensures t.end == Completed <==> t.items[|t.items| - 1] == Status.ApplicationStatus.NotFound
  {
    PollStream(Status.ApplicationStatus.Unknown, Status.ApplicationStatus.NotFound,
               seq(|calls|, i requires 0 <= i < |calls| => ReadApplicationStatus(calls[i])))
  }

  /** The first scenario's application status stream. */
  function ScenarioApplicationStream(calls: seq<Outcome<ResourceBody>>)
    : (t: Trace<ScenarioStatus.ApplicationStatus>)
    ensures |t.items| > 0 && t.items[0] == ScenarioStatus.ApplicationStatus.Unknown
    ensures forall i :: 0 <= i < |t.items| - 1 ==> t.items[i] != ScenarioStatus.ApplicationStatus.NotFound
    ensures t.end == Completed <==> t.items[|t.items| - 1] == ScenarioStatus.ApplicationStatus.NotFound
  {
    PollStream(ScenarioStatus.ApplicationStatus.Unknown, ScenarioStatus.ApplicationStatus.NotFound,
               seq(|calls|, i requires 0 <= i < |calls| => ReadScenarioApplicationStatus(calls[i])))
  }

  /** The first scenario's service status stream. */
  function ScenarioServiceStream(calls: seq<Outcome<ResourceBody>>)
    : (t: Trace<ScenarioStatus.ServiceStatus>)
    ensures |t.items| > 0 && t.items[0] == ScenarioStatus.ServiceStatus.Unknown
    ensures forall i :: 0 <= i < |t.items| - 1 ==> t.items[i] != ScenarioStatus.ServiceStatus.NotFound
    ensures t.end == Completed <==> t.items[|t.items| - 1] == ScenarioStatus.ServiceStatus.NotFound
  {
    PollStream(ScenarioStatus.ServiceStatus.Unknown, ScenarioStatus.ServiceStatus.NotFound,
               seq(|calls|, i requires 0 <= i < |calls| => ReadScenarioServiceStatus(calls[i])))
  }
}
