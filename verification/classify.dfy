/** How the client turns the outcome of one management-API call into a reading: some
    failures are expected answers (the resource is gone, or not ready yet) and become
    values; every other failure is rethrown unchanged and ends the polling stream. */
module Classify {
  import opened Wrappers
  import opened Status
  import ScenarioStatus

  const HttpBadRequest: int := 400
  const HttpNotFound: int := 404

  /** What a management-API call threw: an error-model exception carrying the HTTP
      status and the error code of its body, or any other exception. */
  datatype ApiError = ErrorModel(statusCode: int, code: string) | OtherError(message: string)

  /** How one call ended: it returned a value or it threw. */
  datatype Outcome<+T> = Returned(value: T) | Threw(error: ApiError)

  /** One container-log reading: what kind of answer came back, and the log text,
      which only an `Output` answer carries (and which the service may leave null). */
  datatype LogReading = LogReading(response: LogResponse, content: Option<string>)

  predicate HasStatus(e: ApiError, status: int) {
    e.ErrorModel? && e.statusCode == status
  }

  predicate HasCode(e: ApiError, code: string) {
    e.ErrorModel? && e.code == code
  }

  /** The container-log query of both mesh clients: 404 or 400 means the resource is
      gone, otherwise an error code "NotReady" means it is not ready yet. */
  function MeshLogReading(call: Outcome<Option<string>>): (r: Outcome<LogReading>)
    ensures call.Returned? ==> r == Returned(LogReading(Output, call.value))
    ensures r == Returned(LogReading(LogResponse.NotFound, None)) <==>
              call.Threw? && (HasStatus(call.error, HttpNotFound) || HasStatus(call.error, HttpBadRequest))
    ensures r == Returned(LogReading(ResourceNotReady, None)) <==>
              && call.Threw? && HasCode(call.error, "NotReady")
              && !HasStatus(call.error, HttpNotFound) && !HasStatus(call.error, HttpBadRequest)
    ensures r.Returned? && r.value.response != Output ==> r.value.content == None
    ensures r.Threw? ==> r.error == call.error
  {
    match call
    case Returned(content) => Returned(LogReading(Output, content))
    case Threw(e) =>
      if HasStatus(e, HttpNotFound) || HasStatus(e, HttpBadRequest) then
        Returned(LogReading(LogResponse.NotFound, None))
      else if HasCode(e, "NotReady") then Returned(LogReading(ResourceNotReady, None))
      else Threw(e)
  }

  /** The container-log query behind the agent-state stream: only 404 means the
      resource is gone, and the not-ready error code is "ResourceNotReady". */
  function AgentLogReading(call: Outcome<Option<string>>): (r: Outcome<LogReading>)
    ensures call.Returned? ==> r == Returned(LogReading(Output, call.value))
    ensures r == Returned(LogReading(LogResponse.NotFound, None)) <==>
              call.Threw? && HasStatus(call.error, HttpNotFound)
    ensures r == Returned(LogReading(ResourceNotReady, None)) <==>
              call.Threw? && HasCode(call.error, "ResourceNotReady") && !HasStatus(call.error, HttpNotFound)
    ensures r.Returned? && r.value.response != Output ==> r.value.content == None
    ensures r.Threw? ==> r.error == call.error
  {
    match call
    case Returned(content) => Returned(LogReading(Output, content))
    case Threw(e) =>
      if HasStatus(e, HttpNotFound) then Returned(LogReading(LogResponse.NotFound, None))
      else if HasCode(e, "ResourceNotReady") then Returned(LogReading(ResourceNotReady, None))
      else Threw(e)
  }

  /** The first scenario's controller polls the log text directly: a 404 or the code
      "ResourceNotReady" yields no item for that poll, a success yields the text. */
  function PolledLogText(call: Outcome<Option<string>>): (r: Outcome<seq<Option<string>>>)
    ensures call.Returned? ==> r == Returned([call.value])
    ensures r == Returned([]) <==>
              call.Threw? && (HasStatus(call.error, HttpNotFound) || HasCode(call.error, "ResourceNotReady"))
    ensures r.Threw? ==> r.error == call.error
  {
    match call
    case Returned(content) => Returned([content])
    case Threw(e) =>
      if HasStatus(e, HttpNotFound) || HasCode(e, "ResourceNotReady") then Returned([])
      else Threw(e)
  }

  /** The controller's direct poll and the agent-state reading classify every call
      alike: both rethrow the same errors, the poll yields nothing exactly when the
      reading is not `Output`, and otherwise both carry the same text. */
  lemma PolledLogTextMatchesAgentReading(call: Outcome<Option<string>>)
    ensures PolledLogText(call).Threw? <==> AgentLogReading(call).Threw?
    ensures PolledLogText(call).Threw? ==> PolledLogText(call).error == AgentLogReading(call).error
    ensures PolledLogText(call) == Returned([]) <==>
              AgentLogReading(call).Returned? && AgentLogReading(call).value.response != Output
    ensures forall c :: PolledLogText(call) == Returned([c]) <==>
              AgentLogReading(call) == Returned(LogReading(Output, c))
  {
  }

  /** The two log classifications agree on every call except an error-model exception
      whose status is 400 or whose code is one of the two not-ready codes. */
  lemma LogReadingsDiffer(call: Outcome<Option<string>>)
    ensures (|| call.Returned?
             || (!HasStatus(call.error, HttpBadRequest)
                 && !HasCode(call.error, "NotReady") && !HasCode(call.error, "ResourceNotReady")))
            ==> MeshLogReading(call) == AgentLogReading(call)
  {
  }

  /** A 400 is "gone" for the mesh clients but is rethrown by the agent-state query. */
  lemma BadRequestDiffers()
    ensures MeshLogReading(Threw(ErrorModel(400, "BadRequest"))) == Returned(LogReading(LogResponse.NotFound, None))
    ensures AgentLogReading(Threw(ErrorModel(400, "BadRequest"))) == Threw(ErrorModel(400, "BadRequest"))
  {
  }

  /** The body fields the status pollers keep alongside the parsed status. */
  datatype ResourceBody = ResourceBody(provisioningState: Option<string>, healthState: Option<string>,
                                       status: Option<string>)

  /** One status poll: the parsed status and the body it came from (none for a 404). */
  datatype StatusReading<+T> = StatusReading(status: T, details: Option<ResourceBody>)

  /** An application or service status query: a 404 reads as `notFound` with no
      details; a returned body is parsed by member name, and a missing or unknown
      status text throws; every other failure is rethrown unchanged. */
  function ReadStatus<T>(call: Outcome<ResourceBody>, parse: string -> Result<T>, notFound: T)
    : (r: Outcome<StatusReading<T>>)
    ensures r.Returned? && r.value.details.None? <==> call.Threw? && HasStatus(call.error, HttpNotFound)
    ensures r.Returned? && r.value.details.None? ==> r.value.status == notFound
    ensures call.Returned? ==>
              (r.Returned? <==> call.value.status.Some? && parse(call.value.status.value).Ok?)
    ensures call.Returned? && r.Returned? ==>
              r.value == StatusReading(parse(call.value.status.value).value, Some(call.value))
    ensures call.Threw? && r.Threw? ==> r.error == call.error
  {
    match call
    case Returned(body) =>
      if body.status.None? then Threw(OtherError("Value cannot be null."))
      else
        var parsed := parse(body.status.value);
        if parsed.Err? then Threw(OtherError(parsed.message))
        else Returned(StatusReading(parsed.value, Some(body)))
    case Threw(e) =>
      if HasStatus(e, HttpNotFound) then Returned(StatusReading(notFound, None)) else Threw(e)
  }

  /** The application status poll of the service-backed client: the status read is
      the member named by the body's status text, and it is `NotFound` exactly when
      the query answered 404 or the body itself said "NotFound". */
  function ReadApplicationStatus(call: Outcome<ResourceBody>): (r: Outcome<StatusReading<ApplicationStatus>>)
    ensures r.Returned? && r.value.details.Some? ==>
              r.value.details.value.status == Some(ApplicationStatusName(r.value.status))
    ensures r.Returned? ==> (r.value.status == ApplicationStatus.NotFound <==>
              r.value.details.None? || r.value.details.value.status == Some("NotFound"))
    ensures r.Returned? && r.value.details.None? <==> call.Threw? && HasStatus(call.error, HttpNotFound)
  {
    ReadStatus(call, ParseApplicationStatus, ApplicationStatus.NotFound)
  }

  /** The service status poll of the service-backed client, in the same terms. */
  function ReadServiceStatus(call: Outcome<ResourceBody>): (r: Outcome<StatusReading<ServiceStatus>>)
    ensures r.Returned? && r.value.details.Some? ==>
              r.value.details.value.status == Some(ServiceStatusName(r.value.status))
    ensures r.Returned? ==> (r.value.status == ServiceStatus.NotFound <==>
              r.value.details.None? || r.value.details.value.status == Some("NotFound"))
    ensures r.Returned? && r.value.details.None? <==> call.Threw? && HasStatus(call.error, HttpNotFound)
  {
    ReadStatus(call, ParseServiceStatus, ServiceStatus.NotFound)
  }

  /** The first scenario's application status poll. */
  function ReadScenarioApplicationStatus(call: Outcome<ResourceBody>)
    : (r: Outcome<StatusReading<ScenarioStatus.ApplicationStatus>>)
    ensures r.Returned? && r.value.details.Some? ==>
              r.value.details.value.status == Some(ScenarioStatus.ApplicationStatusName(r.value.status))
    ensures r.Returned? ==> (r.value.status == ScenarioStatus.ApplicationStatus.NotFound <==>
              r.value.details.None? || r.value.details.value.status == Some("NotFound"))
    ensures r.Returned? && r.value.details.None? <==> call.Threw? && HasStatus(call.error, HttpNotFound)
  {
    ReadStatus(call, ScenarioStatus.ParseApplicationStatus, ScenarioStatus.ApplicationStatus.NotFound)
  }

  /** The first scenario's service status poll. */
  function ReadScenarioServiceStatus(call: Outcome<ResourceBody>)
    : (r: Outcome<StatusReading<ScenarioStatus.ServiceStatus>>)
    ensures r.Returned? && r.value.details.Some? ==>
              r.value.details.value.status == Some(ScenarioStatus.ServiceStatusName(r.value.status))
    ensures r.Returned? ==> (r.value.status == ScenarioStatus.ServiceStatus.NotFound <==>
              r.value.details.None? || r.value.details.value.status == Some("NotFound"))
    ensures r.Returned? && r.value.details.None? <==> call.Threw? && HasStatus(call.error, HttpNotFound)
  {
    ReadStatus(call, ScenarioStatus.ParseServiceStatus, ScenarioStatus.ServiceStatus.NotFound)
  }
}
