/** The first scenario's controller: a small machine over the flags `initialized`,
    `started` and, while a mesh is being watched, `serviceReady`. Creating and
    deleting the mesh are calls whose outcome is an input; the polling it starts is
    reduced to the one decision it makes, when to start watching the container log. */
module ScenarioController {
  import opened Wrappers
  import opened Strings
  import opened Common
  import opened Classify
  import Provisioning

  const NotInitializedMessage := "MeshController not initialized"
  const ReadyStatus := "Ready"

  /** The service principal the management client is built from. */
  datatype Credentials = Credentials(clientId: string, clientSecret: string, tenantId: string, subscriptionId: string)

  datatype Settings = Settings(credentials: Credentials, mesh: Provisioning.Arguments)

  /** The polls of a started mesh: whether the service has been seen ready, and how
      many container-log pollings have been handed to the log stream. */
  datatype Polling = Polling(serviceReady: bool, logPollings: nat)

  /** `client` is the credentials the management client was built from, once built. */
  datatype Controller = Controller(client: Option<Credentials>, initialized: bool, settings: Option<Settings>,
                                   meshName: Option<string>, started: bool, polling: Option<Polling>)
  {
    /** The controller never records settings without having been initialized, is
        started only once initialized with a mesh named, and polls only while started. */
    predicate Valid() {
      && (initialized <==> settings.Some?) && (initialized ==> client.Some?)
      && (started ==> initialized && meshName.Some?)
      && (polling.Some? ==> started)
    }
  }

  const Fresh := Controller(None, false, None, None, false, None)

  /** The management-API call an operation made, if any. */
  datatype Call = NoCall | Create(request: Provisioning.CreateRequest) | Delete(resourceGroup: string, meshName: string)

  datatype Step = Step(next: Controller, call: Call, result: Outcome<()>)

  /** The client is built from the first settings only; the settings are replaced every time. */
  function Initialize(c: Controller, settings: Settings): (r: Controller)
    ensures r.initialized && r.settings == Some(settings)
    ensures r.client == if c.client.Some? then c.client else Some(settings.credentials)
    ensures r.client.Some? && (c.Valid() ==> r.Valid())
    ensures r.meshName == c.meshName && r.started == c.started && r.polling == c.polling
  {
    c.(client := if c.client.None? then Some(settings.credentials) else c.client,
       initialized := true, settings := Some(settings))
  }

  /** Starting: a fresh mesh name from `nameGuid`, a create call, and on success the
      mesh is started with nothing polled yet. */
  function Start(c: Controller, nameGuid: string, agentGuid: string, create: Outcome<()>): (s: Step)
    requires c.Valid()
    ensures s.next.Valid()
    ensures !c.initialized ==> s == Step(c, NoCall, Threw(OtherError(NotInitializedMessage)))
    ensures c.initialized ==>
              && s.next.meshName == Some(c.settings.value.mesh.name + CleanGuid(nameGuid))
              && s.call.Create? && s.call.request.meshName == s.next.meshName.value
    ensures s.next.started <==> c.started || (c.initialized && create.Returned?)
    ensures c.initialized && create.Returned? ==> s.next.polling == Some(Polling(false, 0)) && s.result.Returned?
    ensures create.Threw? ==> s.next.polling == c.polling && s.result.Threw?
    ensures s.next.client == c.client && s.next.settings == c.settings
  {
    if !c.initialized then Step(c, NoCall, Threw(OtherError(NotInitializedMessage)))
    else
      var (request, outcome) := Provisioning.CreateMesh(c.settings.value.mesh, nameGuid, agentGuid, create);
      var named := c.(meshName := Some(request.meshName));
      match outcome
      case Threw(e) => Step(named, Create(request), Threw(e))
      case Returned(_) => Step(named.(started := true, polling := Some(Polling(false, 0))), Create(request), Returned(()))
  }

  /** Stopping deletes the current mesh; only a successful delete clears `started`
      and the polling. It is reached only from a started controller. */
  function Stop(c: Controller, delete: Outcome<()>): (s: Step)
    requires c.Valid() && c.started
    ensures s.next.Valid()
    ensures s.call == Delete(c.settings.value.mesh.resourceGroup, c.meshName.value)
    ensures delete.Returned? ==> !s.next.started && s.next.polling.None? && s.result.Returned?
    ensures delete.Threw? ==> s.next == c && s.result == Threw(delete.error)
    ensures s.next.meshName == c.meshName && s.next.settings == c.settings
  {
    var call := Delete(c.settings.value.mesh.resourceGroup, c.meshName.value);
    match delete
    case Threw(e) => Step(c, call, Threw(e))
    case Returned(_) => Step(c.(started := false, polling := None), call, Returned(()))
  }

  /** The one key the user presses: start when stopped, stop when started. */
  function Toggle(c: Controller, nameGuid: string, agentGuid: string, outcome: Outcome<()>): (s: Step)
    requires c.Valid()
    ensures s.next.Valid()
    ensures s.call.Create? <==> !c.started && c.initialized
    ensures s.call.Delete? <==> c.started
    ensures outcome.Returned? && c.initialized ==> s.next.started != c.started
    ensures outcome.Threw? ==> s.next.started == c.started
  {
    if !c.started then Start(c, nameGuid, agentGuid, outcome) else Stop(c, outcome)
  }

  /** Quitting stops the mesh only if one is started. */
  function Quit(c: Controller, delete: Outcome<()>): (s: Step)
    requires c.Valid()
    ensures s.call.Delete? <==> c.started
    ensures !c.started ==> s.next == c && s.result.Returned?
    ensures c.started && delete.Returned? ==> !s.next.started && s.next.polling.None?
    ensures c.started && delete.Threw? ==> s.next == c && s.result.Threw?
  {
    if c.started then Stop(c, delete) else Step(c, NoCall, Returned(()))
  }

  /** A changed service reading arrives. The first with status "Ready" hands one
      container-log polling to the log stream; later ones do nothing. */
  function ServiceSeen(c: Controller, status: Option<string>): (r: Controller)
    ensures r.started == c.started && r.meshName == c.meshName && r.settings == c.settings && r.client == c.client
    ensures c.polling.None? ==> r == c
    ensures c.polling.Some? ==> r.polling.Some?
    ensures c.polling.Some? ==>
              (r.polling.value.logPollings == c.polling.value.logPollings + 1 <==>
                 !c.polling.value.serviceReady && status == Some(ReadyStatus))
    ensures c.polling.Some? && (c.polling.value.serviceReady || status != Some(ReadyStatus)) ==> r == c
    ensures c.Valid() ==> r.Valid()
  {
    match c.polling
    case None => c
    case Some(p) =>
      if !p.serviceReady && status == Some(ReadyStatus) then
        c.(polling := Some(Polling(true, p.logPollings + 1)))
      else c
  }

  function ServiceRun(c: Controller, statuses: seq<Option<string>>): (r: Controller)
    decreases |statuses|
  {
    if statuses == [] then c else ServiceRun(ServiceSeen(c, statuses[0]), statuses[1..])
  }

  /** After a start, the log is polled at most once, and exactly when some service
      reading said "Ready". */
  lemma {:induction false} LogPolledAtMostOnce(p: Polling, c: Controller, statuses: seq<Option<string>>)
    requires c.polling == Some(p) && p.logPollings == (if p.serviceReady then 1 else 0)
    ensures var r := ServiceRun(c, statuses);
      r.polling.Some?
      && r.polling.value.logPollings == (if r.polling.value.serviceReady then 1 else 0)
      && (r.polling.value.serviceReady <==> p.serviceReady || Some(ReadyStatus) in statuses)
    decreases |statuses|
  {
    if statuses != [] {
      var next := ServiceSeen(c, statuses[0]);
      LogPolledAtMostOnce(next.polling.value, next, statuses[1..]);
      assert statuses == [statuses[0]] + statuses[1..];
    }
  }

  /** A whole session: initialize, start, stop. The mesh deleted is the one created, and
      afterwards nothing is started or polled. */
  lemma Session(settings: Settings, nameGuid: string, agentGuid: string)
    ensures var c1 := Initialize(Fresh, settings);
      var s2 := Toggle(c1, nameGuid, agentGuid, Returned(()));
      var s3 := Toggle(s2.next, nameGuid, agentGuid, Returned(()));
      && s2.next.started && s2.call.Create?
      && s3.call == Delete(settings.mesh.resourceGroup, s2.call.request.meshName)
      && !s3.next.started && s3.next.polling.None?
  {
  }

  /** A failed create leaves the controller stopped, so the next toggle starts again
      under a new name. */
  lemma FailedCreateRetries(c: Controller, g1: string, g2: string, agentGuid: string, e: ApiError)
    requires c.Valid() && c.initialized && !c.started
    ensures var s := Toggle(c, g1, agentGuid, Threw(e));
      !s.next.started && Toggle(s.next, g2, agentGuid, Returned(())).call.Create?
      && Toggle(s.next, g2, agentGuid, Returned(())).next.meshName
         == Some(c.settings.value.mesh.name + CleanGuid(g2))
  {
  }
}
