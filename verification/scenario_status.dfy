/** The status enumerations of the first scenario (namespace
    `Client.App.FirstScenario.Model`): the same members as the service-backed
    client's, except that none of them has `Failed`. */
module ScenarioStatus {
  import opened Wrappers
  import opened EnumNames
  import Status

  datatype ApplicationStatus = Unknown | Creating | Ready | Deleting | NotFound
  datatype ServiceStatus = Unknown | Ready | NotFound
  datatype AgentStatus = Unknown | NotReady | Starting | Ready | NotFound

  /** Each member as the same-named member of the service-backed client's enumeration. */
  function AsApplicationStatus(a: ApplicationStatus): (r: Status.ApplicationStatus)
    ensures r != Status.ApplicationStatus.Failed
  {
    match a
    case Unknown => Status.ApplicationStatus.Unknown
    case Creating => Status.ApplicationStatus.Creating
    case Ready => Status.ApplicationStatus.Ready
    case Deleting => Status.ApplicationStatus.Deleting
    case NotFound => Status.ApplicationStatus.NotFound
  }

  function AsServiceStatus(s: ServiceStatus): (r: Status.ServiceStatus)
    ensures r != Status.ServiceStatus.Failed
  {
    match s
    case Unknown => Status.ServiceStatus.Unknown
    case Ready => Status.ServiceStatus.Ready
    case NotFound => Status.ServiceStatus.NotFound
  }

  function AsAgentStatus(s: AgentStatus): (r: Status.AgentStatus)
    ensures r != Status.AgentStatus.Failed
  {
    match s
    case Unknown => Status.AgentStatus.Unknown
    case NotReady => Status.AgentStatus.NotReady
    case Starting => Status.AgentStatus.Starting
    case Ready => Status.AgentStatus.Ready
    case NotFound => Status.AgentStatus.NotFound
  }

  /** The inverse direction: the same-named member, absent for `Failed`. */
  function FromApplicationStatus(a: Status.ApplicationStatus): (r: Option<ApplicationStatus>)
    ensures r.Some? <==> a != Status.ApplicationStatus.Failed
    ensures r.Some? ==> AsApplicationStatus(r.value) == a
  {
    match a
    case Unknown => Some(ApplicationStatus.Unknown)
    case Failed => None
    case Creating => Some(Creating)
    case Ready => Some(ApplicationStatus.Ready)
    case Deleting => Some(Deleting)
    case NotFound => Some(ApplicationStatus.NotFound)
  }

  function FromServiceStatus(s: Status.ServiceStatus): (r: Option<ServiceStatus>)
    ensures r.Some? <==> s != Status.ServiceStatus.Failed
    ensures r.Some? ==> AsServiceStatus(r.value) == s
  {
    match s
    case Unknown => Some(ServiceStatus.Unknown)
    case Ready => Some(ServiceStatus.Ready)
    case NotFound => Some(ServiceStatus.NotFound)
    case Failed => None
  }

  function FromAgentStatus(s: Status.AgentStatus): (r: Option<AgentStatus>)
    ensures r.Some? <==> s != Status.AgentStatus.Failed
    ensures r.Some? ==> AsAgentStatus(r.value) == s
  {
    match s
    case Unknown => Some(AgentStatus.Unknown)
    case NotReady => Some(NotReady)
    case Starting => Some(Starting)
    case Ready => Some(AgentStatus.Ready)
    case NotFound => Some(AgentStatus.NotFound)
    case Failed => None
  }

  /** Embedding and then reading back gives the member unchanged. */
  lemma EmbeddingRoundTrip(a: ApplicationStatus, s: ServiceStatus, g: AgentStatus)
    ensures FromApplicationStatus(AsApplicationStatus(a)) == Some(a)
    ensures FromServiceStatus(AsServiceStatus(s)) == Some(s)
    ensures FromAgentStatus(AsAgentStatus(g)) == Some(g)
  {
  }

  function ApplicationStatusName(a: ApplicationStatus): string {
    Status.ApplicationStatusName(AsApplicationStatus(a))
  }

  function ServiceStatusName(s: ServiceStatus): string {
    Status.ServiceStatusName(AsServiceStatus(s))
  }

  const ApplicationStatuses: seq<ApplicationStatus> :=
    [ApplicationStatus.Unknown, Creating, ApplicationStatus.Ready, Deleting, ApplicationStatus.NotFound]

  const ServiceStatuses: seq<ServiceStatus> :=
    [ServiceStatus.Unknown, ServiceStatus.Ready, ServiceStatus.NotFound]

  lemma ApplicationStatusesComplete()
    ensures forall a :: a in ApplicationStatuses
  {
    forall a ensures a in ApplicationStatuses {
      match a
      case Unknown => assert ApplicationStatuses[0] == a;
      case Creating => assert ApplicationStatuses[1] == a;
      case Ready => assert ApplicationStatuses[2] == a;
      case Deleting => assert ApplicationStatuses[3] == a;
      case NotFound => assert ApplicationStatuses[4] == a;
    }
  }

  lemma ServiceStatusesComplete()
    ensures forall s :: s in ServiceStatuses
  {
    forall s ensures s in ServiceStatuses {
      match s
      case Unknown => assert ServiceStatuses[0] == s;
      case Ready => assert ServiceStatuses[1] == s;
      case NotFound => assert ServiceStatuses[2] == s;
    }
  }

  function ParseApplicationStatus(text: string): (r: Result<ApplicationStatus>)
    ensures r.Ok? ==> ApplicationStatusName(r.value) == text
    ensures r.Err? ==> forall a :: ApplicationStatusName(a) != text
  {
    ApplicationStatusesComplete();
    ParseName(ApplicationStatuses, ApplicationStatusName, text)
  }

  function ParseServiceStatus(text: string): (r: Result<ServiceStatus>)
    ensures r.Ok? ==> ServiceStatusName(r.value) == text
    ensures r.Err? ==> forall s :: ServiceStatusName(s) != text
  {
    ServiceStatusesComplete();
    ParseName(ServiceStatuses, ServiceStatusName, text)
  }

  /** The first scenario accepts exactly the texts the service-backed client accepts,
      except "Failed", and reads each as the same-named member. */
  lemma ApplicationParseAgrees(text: string)
    ensures ParseApplicationStatus(text).Ok? <==>
              Status.ParseApplicationStatus(text).Ok? && text != "Failed"
    ensures ParseApplicationStatus(text).Ok? ==>
              Status.ParseApplicationStatus(text)
                == Ok(AsApplicationStatus(ParseApplicationStatus(text).value))
  {
    var r := ParseApplicationStatus(text);
    var q := Status.ParseApplicationStatus(text);
    if r.Ok? {
      Status.ApplicationStatusRoundTrip(AsApplicationStatus(r.value), text);
    }
    if q.Ok? && text != "Failed" {
      var a := FromApplicationStatus(q.value);
      assert ApplicationStatusName(a.value) == text;
    }
  }

  lemma ServiceParseAgrees(text: string)
    ensures ParseServiceStatus(text).Ok? <==>
              Status.ParseServiceStatus(text).Ok? && text != "Failed"
    ensures ParseServiceStatus(text).Ok? ==>
              Status.ParseServiceStatus(text) == Ok(AsServiceStatus(ParseServiceStatus(text).value))
  {
    var r := ParseServiceStatus(text);
    var q := Status.ParseServiceStatus(text);
    if r.Ok? {
      Status.ServiceStatusRoundTrip(AsServiceStatus(r.value), text);
    }
    if q.Ok? && text != "Failed" {
      var s := FromServiceStatus(q.value);
      assert ServiceStatusName(s.value) == text;
    }
  }
}
