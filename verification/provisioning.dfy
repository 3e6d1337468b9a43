/** The application resource the client asks the mesh to create: one linux service
    running one container that hosts a pipelines agent, and, for the first scenario,
    the fresh mesh name it is created under. */
module Provisioning {
  import opened Wrappers
  import opened Strings
  import opened Common
  import opened Classify

  const Location := "eastus"
  const OsType := "linux"
  const ServiceResourceName := "AzureAgentResource"
  const CodePackageName := "AzureAgentContainer"
  const AgentNameVariable := "AZP_AGENT_NAME"
  const UrlVariable := "AZP_URL"
  const TokenVariable := "AZP_TOKEN"
  const AgentNamePrefix := "agent-"

  /** What the caller supplies: the container registry, the image, and the pipelines
      organisation the agent joins. */
  datatype Deployment = Deployment(registryServer: string, registryUsername: string, registryPassword: string,
                                   image: string, pipelinesUrl: string, pipelinesToken: string)

  datatype Credential = Credential(server: string, username: string, password: string)
  datatype EnvironmentVariable = EnvironmentVariable(name: string, value: string)
  /** The requested memory (in GB) and cpu of the container. */
  datatype ResourceRequests = ResourceRequests(memoryInGB: int, cpu: int)
  datatype CodePackage = CodePackage(name: string, credential: Credential, image: string,
                                     environment: seq<EnvironmentVariable>, requests: ResourceRequests)
  datatype ServiceDescription = ServiceDescription(name: string, osType: string, replicaCount: Option<int>,
                                                   codePackages: seq<CodePackage>)
  datatype ApplicationDescription = ApplicationDescription(location: string, services: seq<ServiceDescription>)

  /** The value of the first variable with this name. */
  function Lookup(env: seq<EnvironmentVariable>, name: string): (r: Option<string>)
    ensures r.Some? <==> exists i :: 0 <= i < |env| && env[i].name == name
    ensures r.Some? ==> exists i :: 0 <= i < |env| && env[i] == EnvironmentVariable(name, r.value)
    decreases |env|
  {
    if env == [] then None
    else if env[0].name == name then Some(env[0].value)
    else
      Lookup(env[1..], name)
  }

  /** The agent's name: the fixed prefix and a hyphen-free guid. */
  function AgentName(agentGuid: string): (n: string)
    ensures StartsWith(n, AgentNamePrefix) && '-' !in n[|AgentNamePrefix|..]
    ensures n[|AgentNamePrefix|..] == CleanGuid(agentGuid)
  {
    AgentNamePrefix + CleanGuid(agentGuid)
  }

  /** The description sent for a new mesh. It carries every input through: the registry
      credential, the image, the pipelines url and token as environment variables, the
      replica count, and the agent's name. */
  function Describe(d: Deployment, agentGuid: string, replicaCount: Option<int>): (r: ApplicationDescription)
    ensures Requested(r) == Some((d, replicaCount, AgentName(agentGuid)))
  {
    AgentEnvironmentLookups(AgentName(agentGuid), d.pipelinesUrl, d.pipelinesToken);
    ApplicationDescription(Location, [
      ServiceDescription(ServiceResourceName, OsType, replicaCount, [
        CodePackage(CodePackageName,
                    Credential(d.registryServer, d.registryUsername, d.registryPassword),
                    d.image,
                    [EnvironmentVariable(AgentNameVariable, AgentName(agentGuid)),
                     EnvironmentVariable(UrlVariable, d.pipelinesUrl),
                     EnvironmentVariable(TokenVariable, d.pipelinesToken)],
                    ResourceRequests(1, 1))])])
  }

  /** Reads back what a description asks for, if it has the agent's shape: one
      service with one container package. */
  function Requested(a: ApplicationDescription): (r: Option<(Deployment, Option<int>, string)>)
  {
    if |a.services| != 1 || |a.services[0].codePackages| != 1 then None
    else
      var service := a.services[0];
      var package := service.codePackages[0];
      var url := Lookup(package.environment, UrlVariable);
      var token := Lookup(package.environment, TokenVariable);
      var agent := Lookup(package.environment, AgentNameVariable);
      if url.None? || token.None? || agent.None? then None
      else Some((Deployment(package.credential.server, package.credential.username, package.credential.password,
                            package.image, url.value, token.value),
                 service.replicaCount, agent.value))
  }

  /** The agent's three environment variables, each read back by its own name. */
  lemma AgentEnvironmentLookups(agent: string, url: string, token: string)
    ensures var env := [EnvironmentVariable(AgentNameVariable, agent), EnvironmentVariable(UrlVariable, url),
                        EnvironmentVariable(TokenVariable, token)];
      && Lookup(env, AgentNameVariable) == Some(agent)
      && Lookup(env, UrlVariable) == Some(url)
      && Lookup(env, TokenVariable) == Some(token)
  {
    var env := [EnvironmentVariable(AgentNameVariable, agent), EnvironmentVariable(UrlVariable, url),
                EnvironmentVariable(TokenVariable, token)];
    assert |AgentNameVariable| == 14 && |UrlVariable| == 7 && |TokenVariable| == 9;
    assert env[1..][1..] == [EnvironmentVariable(TokenVariable, token)];
    assert Lookup(env[1..][1..], TokenVariable) == Some(token);
    assert Lookup(env[1..], TokenVariable) == Some(token);
  }

  /** The fixed parts of the description. */
  lemma DescribeShape(d: Deployment, agentGuid: string, replicaCount: Option<int>)
    ensures var a := Describe(d, agentGuid, replicaCount);
      a.location == "eastus" && |a.services| == 1
      && a.services[0].name == "AzureAgentResource" && a.services[0].osType == "linux"
      && |a.services[0].codePackages| == 1
      && a.services[0].codePackages[0].name == "AzureAgentContainer"
      && a.services[0].codePackages[0].requests == ResourceRequests(1, 1)
      && |a.services[0].codePackages[0].environment| == 3
  {
  }

  /** With a canonical guid, the agent name is "agent-" and 32 hexadecimal digits. */
  lemma AgentNameOfCanonicalGuid(agentGuid: string)
    requires IsGuidText(agentGuid)
    ensures |AgentName(agentGuid)| == 38
    ensures forall i :: 6 <= i < 38 ==> IsHexDigit(AgentName(agentGuid)[i])
  {
    CleanCanonicalGuid(agentGuid);
    var n := AgentName(agentGuid);
    forall i | 6 <= i < 38 ensures IsHexDigit(n[i]) {
      assert n[i] == CleanGuid(agentGuid)[i - 6];
    }
  }

  // Creating the first scenario's mesh

  /** The first scenario's settings that bear on creating the mesh. */
  datatype Arguments = Arguments(name: string, resourceGroup: string, deployment: Deployment)

  function MeshName(prefix: string, guid: string): (n: string)
    ensures StartsWith(n, prefix) && n[|prefix|..] == CleanGuid(guid)
  {
    prefix + CleanGuid(guid)
  }

  /** What a create call sends: the resource group, the mesh name and the description. */
  datatype CreateRequest = CreateRequest(resourceGroup: string, meshName: string, description: ApplicationDescription)

  /** Creating the mesh: a fresh name from `nameGuid`, an agent named from `agentGuid`,
      no replica count; on success the name is returned, and a failed call is passed on. */
  function CreateMesh(args: Arguments, nameGuid: string, agentGuid: string, response: Outcome<()>)
    : (r: (CreateRequest, Outcome<string>))
    ensures r.1.Returned? <==> response.Returned?
    ensures r.1.Returned? ==> r.1.value == r.0.meshName
    ensures r.1.Threw? ==> r.1.error == response.error
    ensures r.0.resourceGroup == args.resourceGroup
    ensures StartsWith(r.0.meshName, args.name) && '-' !in r.0.meshName[|args.name|..]
    ensures Requested(r.0.description) == Some((args.deployment, None, AgentName(agentGuid)))
  {
    var request := CreateRequest(args.resourceGroup, MeshName(args.name, nameGuid),
                                 Describe(args.deployment, agentGuid, None));
    match response
    case Returned(_) => (request, Returned(request.meshName))
    case Threw(e) => (request, Threw(e))
  }

  /** Meshes created from guids that clean differently get different names. */
  lemma MeshNamesDiffer(prefix: string, g1: string, g2: string)
    requires CleanGuid(g1) != CleanGuid(g2)
    ensures MeshName(prefix, g1) != MeshName(prefix, g2)
  {
    assert MeshName(prefix, g1)[|prefix|..] == CleanGuid(g1);
  }

  /** With a canonical guid, the mesh name is the prefix and 32 hexadecimal digits. */
  lemma MeshNameOfCanonicalGuid(prefix: string, guid: string)
    requires IsGuidText(guid)
    ensures |MeshName(prefix, guid)| == |prefix| + 32
    ensures forall i :: |prefix| <= i < |prefix| + 32 ==> IsHexDigit(MeshName(prefix, guid)[i])
  {
    CleanCanonicalGuid(guid);
    var n := MeshName(prefix, guid);
    forall i | |prefix| <= i < |prefix| + 32 ensures IsHexDigit(n[i]) {
      assert n[i] == CleanGuid(guid)[i - |prefix|];
    }
  }

  /** The service-backed client's create-or-edit call: the description it sends and,
      on success, the given resource name back. */
  function CreateOrEditMesh(name: string, resourceGroup: string, d: Deployment, agentGuid: string,
                            replicaCount: Option<int>, response: Outcome<()>)
    : (r: (CreateRequest, Outcome<string>))
    ensures r.1.Returned? <==> response.Returned?
    ensures r.1.Returned? ==> r.1.value == name == r.0.meshName
    ensures r.1.Threw? ==> r.1.error == response.error
    ensures Requested(r.0.description) == Some((d, replicaCount, AgentName(agentGuid)))
  {
    var request := CreateRequest(resourceGroup, name, Describe(d, agentGuid, replicaCount));
    match response
    case Returned(_) => (request, Returned(name))
    case Threw(e) => (request, Threw(e))
  }
}
