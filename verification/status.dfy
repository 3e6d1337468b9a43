/** The status enumerations of the service-backed client (namespace `Client.App.Model`),
    and the three kinds of answer a container-log query can give. */
module Status {
  import opened Wrappers
  import opened EnumNames

  datatype ApplicationStatus = Unknown | Failed | Creating | Ready | Deleting | NotFound
  datatype ServiceStatus = Unknown | Ready | NotFound | Failed
  datatype AgentStatus = Unknown | NotReady | Starting | Ready | NotFound | Failed

  /** How one container-log query ended: the resource is gone, not ready yet, or it
      returned the log text. */
  datatype LogResponse = NotFound | ResourceNotReady | Output

  function ApplicationStatusName(a: ApplicationStatus): string {
    match a
    case Unknown => "Unknown"
    case Failed => "Failed"
    case Creating => "Creating"
    case Ready => "Ready"
    case Deleting => "Deleting"
    case NotFound => "NotFound"
  }

  function ServiceStatusName(s: ServiceStatus): string {
    match s
    case Unknown => "Unknown"
    case Ready => "Ready"
    case NotFound => "NotFound"
    case Failed => "Failed"
  }

  /** The members in declaration order. */
  const ApplicationStatuses: seq<ApplicationStatus> :=
    [ApplicationStatus.Unknown, ApplicationStatus.Failed, Creating, ApplicationStatus.Ready,
     Deleting, ApplicationStatus.NotFound]

  const ServiceStatuses: seq<ServiceStatus> :=
    [ServiceStatus.Unknown, ServiceStatus.Ready, ServiceStatus.NotFound, ServiceStatus.Failed]

  lemma ApplicationStatusesComplete()
    ensures forall a :: a in ApplicationStatuses
  {
    forall a ensures a in ApplicationStatuses {
      match a
      case Unknown => assert ApplicationStatuses[0] == a;
      case Failed => assert ApplicationStatuses[1] == a;
      case Creating => assert ApplicationStatuses[2] == a;
      case Ready => assert ApplicationStatuses[3] == a;
      case Deleting => assert ApplicationStatuses[4] == a;
      case NotFound => assert ApplicationStatuses[5] == a;
    }
  }

  lemma ServiceStatusesComplete()
    ensures forall s :: s in ServiceStatuses
  {
    forall s ensures s in ServiceStatuses {
      match s
      case Unknown => assert ServiceStatuses[0] == s;
      case Ready => assert ServiceStatuses[1] == s;
      case NotFound => assert ServiceStatuses[2] == s;
      case Failed => assert ServiceStatuses[3] == s;
    }
  }

  /** The application status named by the text the service reported, if any. */
  function ParseApplicationStatus(text: string): (r: Result<ApplicationStatus>)
    ensures r.Ok? ==> ApplicationStatusName(r.value) == text
    ensures r.Err? ==> forall a :: ApplicationStatusName(a) != text
  {
    ApplicationStatusesComplete();
    ParseName(ApplicationStatuses, ApplicationStatusName, text)
  }

  /** The service status named by the text the service reported, if any. */
  function ParseServiceStatus(text: string): (r: Result<ServiceStatus>)
    ensures r.Ok? ==> ServiceStatusName(r.value) == text
    ensures r.Err? ==> forall s :: ServiceStatusName(s) != text
  {
    ServiceStatusesComplete();
    ParseName(ServiceStatuses, ServiceStatusName, text)
  }

  /** Parsing a member's name gives back that member, and only its name parses to it. */
  lemma ApplicationStatusRoundTrip(a: ApplicationStatus, text: string)
    ensures ParseApplicationStatus(ApplicationStatusName(a)) == Ok(a)
    ensures ParseApplicationStatus(text) == Ok(a) <==> text == ApplicationStatusName(a)
  {
    var r := ParseApplicationStatus(ApplicationStatusName(a));
    assert r.Ok?;
    assert ApplicationStatusName(r.value) == ApplicationStatusName(a);
  }

  lemma ServiceStatusRoundTrip(s: ServiceStatus, text: string)
    ensures ParseServiceStatus(ServiceStatusName(s)) == Ok(s)
    ensures ParseServiceStatus(text) == Ok(s) <==> text == ServiceStatusName(s)
  {
    var r := ParseServiceStatus(ServiceStatusName(s));
    assert r.Ok?;
    assert ServiceStatusName(r.value) == ServiceStatusName(s);
  }
}
