/** The compute inventory that is put together from connector reports. */
module ComputeInventory {
  import opened Common
  import opened Texts

  // Platforms, hosts, environments and their definitions come from one pass, with stand-ins for parents that
  // have not reported yet.

  // ----- What connectors report ----------------------------------------------------------------------------------

  datatype Identity = Identity(version: int, key: string)

  /** JSON text has no raw NUL: control characters in strings are escaped (section 7 of RFC 8259). */
  type JsonText = t: string | '\0' !in t

  /** A resource report: when it was made, and its JSON text. */
  datatype Resources = Resources(reportedAt: string, json: JsonText)

  datatype Metadata = Metadata(
    environmentIdentity: Identity, environmentKind: string, environmentName: string, parentIdentity: Option<Identity>,
    hostEvidence: string, hostIdentity: Option<Identity>, hostName: string, hostResolution: string,
    platformKind: string, platformName: string, resourceMode: string, resources: Option<Resources>)

  datatype Environment = Environment(kind: string, name: string)

  /** A connector; older ones report no metadata. */
  datatype Machine = Machine(id: string, name: string, environment: Option<Environment>, lastSeen: Option<string>,
                             compute: Option<Metadata>)

  datatype PhysicalMachine = PhysicalMachine(id: string, name: string, connectorIds: seq<string>)

  // ----- The inventory -------------------------------------------------------------------------------------------

  // Identifiers are digests of the text of these parts; as long as no two digests coincide the parts will do.

  datatype PlatformId = PlatformId(kind: string, name: string)

  datatype HostId = VerifiedHost(platform: PlatformId, identity: Identity)
      | ManualHost(platform: PlatformId, physical: string)

  datatype EnvironmentId = EnvironmentId(platform: PlatformId, identity: Identity)

  datatype HostAssociation = HostAssociation(evidence: string, host: Option<HostId>, resolution: string)

  const CONFLICT := HostAssociation("user", None, "conflict")

  datatype Host = Host(identity: Identity, name: string, platform: PlatformId, resources: Option<Resources>)

  datatype EnvironmentRecord = EnvironmentRecord(
    definition: string, association: HostAssociation, identity: Identity, kind: string, name: string,
    parent: Option<EnvironmentId>, platform: PlatformId, resourceMode: string, resources: Option<Resources>)

  datatype Link = Link(connector: string, environment: EnvironmentId, associatedAt: string)

  datatype State = State(platforms: set<PlatformId>, hosts: map<HostId, Host>, definitions: set<string>,
                         environments: map<EnvironmentId, EnvironmentRecord>, placeholders: set<EnvironmentId>,
                         links: seq<Link>)

  const EMPTY := State({}, map[], {}, map[], {}, [])

  datatype Snapshot = Snapshot(platforms: set<PlatformId>, hosts: map<HostId, Host>, definitions: set<string>,
                               environments: map<EnvironmentId, EnvironmentRecord>, links: seq<Link>)

  // ----- One connector -------------------------------------------------------------------------------------------

  /** What is the same for all connectors: a digest, and the physical machines. */
  datatype Context = Context(digest: string -> string, machines: seq<PhysicalMachine>)

  function Legacy(m: Machine, digest: string -> string): Metadata {
    var kind := match m.environment
      case Some(e) =>
        if e.kind == "macos" then "native_macos" else if e.kind == "windows" then "native_windows"
        else if e.kind == "wsl" then "wsl" else if e.kind == "linux" then "native_linux" else "other"
      case None => "other";
    var name := if m.environment.Some? && m.environment.value.name != "" then m.environment.value.name else m.name;
    Metadata(Identity(1, "connector:" + digest(m.id)), kind, name, None, "none", None, "", "unresolved",
             "local", "Local & self-hosted", "dedicated", None)
  }

  function MetadataOf(m: Machine, c: Context): Metadata {
    if m.compute.Some? then m.compute.value else Legacy(m, c.digest)
  }

  function PlatformOf(d: Metadata): PlatformId {
    PlatformId(d.platformKind, d.platformName)
  }

  /** A physical machine once for each time it lists the connector. */
  function Listings(p: PhysicalMachine, connectorIds: seq<string>, connector: string): seq<PhysicalMachine> {
    if connectorIds == [] then []
    else
      var n := |connectorIds| - 1;
      Listings(p, connectorIds[..n], connector) + if connectorIds[n] == connector then [p] else []
  }

  function Manual(machines: seq<PhysicalMachine>, connector: string): seq<PhysicalMachine> {
    if machines == [] then []
    else
      var n := |machines| - 1;
      Manual(machines[..n], connector) + Listings(machines[n], machines[n].connectorIds, connector)
  }

  predicate IsVerified(d: Metadata) {
    d.hostResolution != "not_applicable" && d.hostIdentity.Some? && d.hostName != "" && d.hostResolution == "verified"
  }

  /** Where an environment runs, given the physical machines that list its connector. */
  function Association(d: Metadata, manual: seq<PhysicalMachine>): HostAssociation {
    if d.hostResolution == "not_applicable" then
      HostAssociation(if d.hostEvidence == "provider" then "provider" else "none", None, "not_applicable")
    else if IsVerified(d) then
      HostAssociation(d.hostEvidence, Some(VerifiedHost(PlatformOf(d), d.hostIdentity.value)), "verified")
    else if |manual| == 1 then HostAssociation("user", Some(ManualHost(PlatformOf(d), manual[0].id)), "manual")
    else if |manual| > 1 then CONFLICT
    else HostAssociation("none", None, "unresolved")
  }

  function AssociationOf(m: Machine, c: Context): HostAssociation {
    Association(MetadataOf(m, c), Manual(c.machines, m.id))
  }

  function ResourceKey(r: Resources): string {
    r.reportedAt + ("\0" + r.json)
  }

  function PreferredResources(current: Option<Resources>, candidate: Option<Resources>): Option<Resources> {
    if current.None? then candidate
    else if candidate.None? then current
    else if CompareText(ResourceKey(candidate.value), ResourceKey(current.value)) > 0 then candidate
    else current
  }

  /** The resources that a connector reports for its host. */
  function HostResources(d: Metadata): Option<Resources> {
    if d.resourceMode == "exclusive" then d.resources else None
  }

  function EnvironmentResources(d: Metadata): Option<Resources> {
    if d.resourceMode == "exclusive" then None else d.resources
  }

  function AddHost(hosts: map<HostId, Host>, d: Metadata, manual: seq<PhysicalMachine>,
                   digest: string -> string): map<HostId, Host> {
    match Association(d, manual).host
    case None => hosts
    case Some(id) =>
      if id.VerifiedHost? then
        var current := if id in hosts then hosts[id].resources else None;
        hosts[id := Host(id.identity, d.hostName, PlatformOf(d), PreferredResources(current, HostResources(d)))]
      else hosts[id := Host(Identity(1, "manual:" + digest(id.physical)), manual[0].name, PlatformOf(d), None)]
  }

  function EnvironmentOf(d: Metadata): EnvironmentId {
    EnvironmentId(PlatformOf(d), d.environmentIdentity)
  }

  function ParentOf(d: Metadata): Option<EnvironmentId> {
    if d.parentIdentity.None? then None else Some(EnvironmentId(PlatformOf(d), d.parentIdentity.value))
  }

  /** The stand-in for a parent that has not reported itself. */
  function Placeholder(d: Metadata, a: HostAssociation): EnvironmentRecord
    requires d.parentIdentity.Some?
  {
    EnvironmentRecord("other", a, d.parentIdentity.value, "other", d.environmentName + " parent", None, PlatformOf(d),
                      "shared", None)
  }

  function Reported(d: Metadata, a: HostAssociation): EnvironmentRecord {
    EnvironmentRecord(d.environmentKind, a, d.environmentIdentity, d.environmentKind, d.environmentName, ParentOf(d),
                      PlatformOf(d), d.resourceMode, EnvironmentResources(d))
  }

  /** The parent's stand-in is put in if the parent is new. */
  function AddParent(s: State, d: Metadata, a: HostAssociation): (r: State)
    ensures r.hosts == s.hosts && r.platforms == s.platforms && r.links == s.links
  {
    match ParentOf(d)
    case None => s
    case Some(parent) =>
      if parent in s.environments then s
      else s.(environments := s.environments[parent := Placeholder(d, a)], placeholders := s.placeholders + {parent},
              definitions := s.definitions + {"other"})
  }

  /** A new environment, the real one behind a stand-in, or one more report of a known one. */
  function AddEnvironment(s: State, d: Metadata, a: HostAssociation): (r: State)
    ensures r.hosts == s.hosts && r.platforms == s.platforms && r.links == s.links && r.definitions == s.definitions
  {
    var id := EnvironmentOf(d);
    if id !in s.environments then s.(environments := s.environments[id := Reported(d, a)])
    else if id in s.placeholders then
      s.(environments := s.environments[id := Reported(d, a)], placeholders := s.placeholders - {id})
    else if s.environments[id].association != a then
      s.(environments := s.environments[id := s.environments[id].(association := CONFLICT)])
    else s
  }

  /** The definition, the platform and the host of a report. */
  function AddReport(s: State, d: Metadata, manual: seq<PhysicalMachine>, digest: string -> string): State {
    s.(definitions := s.definitions + {d.environmentKind}, platforms := s.platforms + {PlatformOf(d)},
       hosts := AddHost(s.hosts, d, manual, digest))
  }

  function AddLink(s: State, link: Link): State {
    s.(links := s.links + [link])
  }

  function Add(s: State, m: Machine, c: Context): State {
    var d, manual := MetadataOf(m, c), Manual(c.machines, m.id);
    var a := Association(d, manual);
    AddLink(AddEnvironment(AddParent(AddReport(s, d, manual, c.digest), d, a), d, a), LinkOf(m, d))
  }

  function LinkOf(m: Machine, d: Metadata): Link {
    Link(m.id, EnvironmentOf(d), if m.lastSeen.Some? then m.lastSeen.value else "1970-01-01T00:00:00.000Z")
  }

  function AddAll(machines: seq<Machine>, c: Context): State {
    if machines == [] then EMPTY else Add(AddAll(machines[..|machines| - 1], c), machines[|machines| - 1], c)
  }

  function Referenced(environments: map<EnvironmentId, EnvironmentRecord>): set<string> {
    set id | id in environments :: environments[id].definition
  }

  /** Definitions that no environment refers to are left out. */
  function Finished(s: State): Snapshot {
    Snapshot(s.platforms, s.hosts, s.definitions * Referenced(s.environments), s.environments, s.links)
  }

  // ----- The pass ------------------------------------------------------------------------------------------------

  function Listed(byConnector: map<string, seq<PhysicalMachine>>, connector: string): seq<PhysicalMachine> {
    if connector in byConnector then byConnector[connector] else []
  }

  lemma ListingsStep(prefix: seq<PhysicalMachine>, p: PhysicalMachine, ids: seq<string>, k: nat, connector: string)
    requires k < |ids|
    ensures prefix + Listings(p, ids[..k + 1], connector)
            == prefix + Listings(p, ids[..k], connector) + if ids[k] == connector then [p] else []
  {
    assert ids[..k + 1][..k] == ids[..k];
  }

  lemma ManualStep(machines: seq<PhysicalMachine>, i: nat, connector: string)
    requires i < |machines|
    ensures Manual(machines[..i + 1], connector)
            == Manual(machines[..i], connector) + Listings(machines[i], machines[i].connectorIds, connector)
  {
    assert machines[..i + 1][..i] == machines[..i];
  }

  /** The physical machines of each connector, in order. */
  method GroupByConnector(machines: seq<PhysicalMachine>) returns (byConnector: map<string, seq<PhysicalMachine>>)
    ensures forall connector :: Listed(byConnector, connector) == Manual(machines, connector)
  {
    byConnector := map[];
    for i := 0 to |machines|
      invariant forall connector :: Listed(byConnector, connector) == Manual(machines[..i], connector)
    {
      byConnector := AddMachine(byConnector, machines[i]);
      forall connector ensures Listed(byConnector, connector) == Manual(machines[..i + 1], connector) {
        ManualStep(machines, i, connector);
      }
    }
    assert machines[..|machines|] == machines;
  }

  method AddMachine(start: map<string, seq<PhysicalMachine>>, machine: PhysicalMachine)
    returns (byConnector: map<string, seq<PhysicalMachine>>)
    ensures forall connector ::
      Listed(byConnector, connector) == Listed(start, connector) + Listings(machine, machine.connectorIds, connector)
  {
    byConnector := start;
    var ids := machine.connectorIds;
    for k := 0 to |ids|
      invariant forall connector ::
          Listed(byConnector, connector) == Listed(start, connector) + Listings(machine, ids[..k], connector)
    {
      ghost var before := byConnector;
      byConnector := byConnector[ids[k] := Listed(byConnector, ids[k]) + [machine]];
      forall connector
        ensures Listed(byConnector, connector) == Listed(start, connector) + Listings(machine, ids[..k + 1], connector)
      {
        assert Listed(before, connector) == Listed(start, connector) + Listings(machine, ids[..k], connector);
        ListingsStep(Listed(start, connector), machine, ids, k, connector);
      }
    }
    assert ids[..|ids|] == ids;
  }

  method ComputeInventoryFromConnectors(connectors: seq<Machine>, c: Context) returns (r: Snapshot)
    ensures r == Finished(AddAll(connectors, c))
    ensures Describes(r, connectors, c)
  {
    hide Describes;
    var platforms: set<PlatformId>, hosts: map<HostId, Host>, definitions: set<string> := {}, map[], {};
    var environments: map<EnvironmentId, EnvironmentRecord>, placeholders: set<EnvironmentId>,
        links: seq<Link> := map[], {}, [];
    var byConnector := GroupByConnector(c.machines);
    for i := 0 to |connectors|
      invariant State(platforms, hosts, definitions, environments, placeholders, links) == AddAll(connectors[..i], c)
    {
      var connector := connectors[i];
      AddAllStep(connectors, i, c);
      var d, manual := MetadataOf(connector, c), Listed(byConnector, connector.id);
      ghost var s := AddAll(connectors[..i], c);
      ghost var s1 := AddReport(s, d, manual, c.digest);
      definitions := definitions + {d.environmentKind};
      platforms := platforms + {PlatformOf(d)};
      var association := Association(d, manual);
      hosts := AddHost(hosts, d, manual, c.digest);
      assert State(platforms, hosts, definitions, environments, placeholders, links) == s1;
      if d.parentIdentity.Some? {
        var parent := EnvironmentId(PlatformOf(d), d.parentIdentity.value);
        if parent !in environments {
          environments := environments[parent := Placeholder(d, association)];
          placeholders, definitions := placeholders + {parent}, definitions + {"other"};
        }
      }
      ghost var s2 := AddParent(s1, d, association);
      assert State(platforms, hosts, definitions, environments, placeholders, links) == s2;
      var id := EnvironmentOf(d);
      if id !in environments {
        environments := environments[id := Reported(d, association)];
      } else if id in placeholders {
        environments, placeholders := environments[id := Reported(d, association)], placeholders - {id};
      } else if environments[id].association != association {
        environments := environments[id := environments[id].(association := CONFLICT)];
      }
      assert State(platforms, hosts, definitions, environments, placeholders, links) ==
          AddEnvironment(s2, d, association);
      links := links + [LinkOf(connector, d)];
    }
    assert connectors[..|connectors|] == connectors;
    r := Snapshot(platforms, hosts, definitions * Referenced(environments), environments, links);
    InventoryIsDescribed(connectors, c);
  }

  lemma AddAllStep(connectors: seq<Machine>, i: nat, c: Context)
    requires i < |connectors|
    ensures AddAll(connectors[..i + 1], c) == Add(AddAll(connectors[..i], c), connectors[i], c)
  {
    assert connectors[..i + 1][..i] == connectors[..i];
  }

  // ----- Closure -------------------------------------------------------------------------------------------------

  /** Every identifier that the inventory mentions is in it. */
  ghost predicate Closed(r: Snapshot) {
    && (forall l :: l in r.links ==> l.environment in r.environments)
    && (forall id :: id in r.environments ==>
          var e := r.environments[id];
          && e.platform in r.platforms && e.definition in r.definitions
          && (e.parent.Some? ==> e.parent.value in r.environments)
          && (e.association.host.Some? ==> e.association.host.value in r.hosts))
    && (forall id :: id in r.hosts ==> r.hosts[id].platform in r.platforms)
  }

  ghost predicate EnvironmentClosed(s: State, e: EnvironmentRecord) {
    && e.platform in s.platforms && e.definition in s.definitions
    && (e.parent.Some? ==> e.parent.value in s.environments)
    && (e.association.host.Some? ==> e.association.host.value in s.hosts)
  }

  ghost predicate StateClosed(s: State) {
    && (forall l :: l in s.links ==> l.environment in s.environments)
    && (forall id :: id in s.environments ==> EnvironmentClosed(s, s.environments[id]))
    && (forall id :: id in s.hosts ==> s.hosts[id].platform in s.platforms)
  }

  lemma GrowthKeepsClosed(s: State, s': State, e: EnvironmentRecord)
    requires EnvironmentClosed(s, e) && s.platforms <= s'.platforms && s.definitions <= s'.definitions
    requires s.environments.Keys <= s'.environments.Keys && s.hosts.Keys <= s'.hosts.Keys
    ensures EnvironmentClosed(s', e)
  {
  }

  /** What a report needs to be there before its environments are put in. */
  ghost predicate Prepared(s: State, d: Metadata, a: HostAssociation) {
    && PlatformOf(d) in s.platforms && d.environmentKind in s.definitions
    && (a.host.Some? ==> a.host.value in s.hosts)
  }

  lemma AddReportKeepsClosed(s: State, d: Metadata, manual: seq<PhysicalMachine>, digest: string -> string)
    requires StateClosed(s)
    ensures var s' := AddReport(s, d, manual, digest); StateClosed(s') && Prepared(s', d, Association(d, manual))
  {
    var s' := AddReport(s, d, manual, digest);
    forall id | id in s.environments ensures EnvironmentClosed(s', s.environments[id]) {
      GrowthKeepsClosed(s, s', s.environments[id]);
    }
  }

  lemma AddParentKeepsClosed(s: State, d: Metadata, a: HostAssociation)
    requires StateClosed(s) && Prepared(s, d, a)
    ensures var s' := AddParent(s, d, a);
            StateClosed(s') && Prepared(s', d, a) && (ParentOf(d).Some? ==> ParentOf(d).value in s'.environments)
  {
    var s' := AddParent(s, d, a);
    forall id | id in s.environments ensures EnvironmentClosed(s', s.environments[id]) {
      GrowthKeepsClosed(s, s', s.environments[id]);
    }
  }

  lemma PutKeepsClosed(s: State, own: EnvironmentId, e: EnvironmentRecord, placeholders: set<EnvironmentId>)
    requires StateClosed(s) && EnvironmentClosed(s, e)
    ensures StateClosed(s.(environments := s.environments[own := e], placeholders := placeholders))
  {
    var s' := s.(environments := s.environments[own := e], placeholders := placeholders);
    GrowthKeepsClosed(s, s', e);
    forall id | id in s.environments ensures EnvironmentClosed(s', s.environments[id]) {
      GrowthKeepsClosed(s, s', s.environments[id]);
    }
  }

  lemma AddEnvironmentKeepsClosed(s: State, d: Metadata, a: HostAssociation)
    requires StateClosed(s) && Prepared(s, d, a) && (ParentOf(d).Some? ==> ParentOf(d).value in s.environments)
    ensures var s' := AddEnvironment(s, d, a); StateClosed(s') && EnvironmentOf(d) in s'.environments
  {
    var own := EnvironmentOf(d);
    if own !in s.environments || own in s.placeholders {
      PutKeepsClosed(s, own, Reported(d, a), AddEnvironment(s, d, a).placeholders);
    } else if s.environments[own].association != a {
      PutKeepsClosed(s, own, s.environments[own].(association := CONFLICT), s.placeholders);
    }
  }

  lemma AddKeepsClosed(s: State, m: Machine, c: Context)
    requires StateClosed(s)
    ensures StateClosed(Add(s, m, c))
  {
    var d, manual := MetadataOf(m, c), Manual(c.machines, m.id);
    var a := Association(d, manual);
    var s1 := AddReport(s, d, manual, c.digest);
    AddReportKeepsClosed(s, d, manual, c.digest);
    AddParentKeepsClosed(s1, d, a);
    var s2 := AddParent(s1, d, a);
    AddEnvironmentKeepsClosed(s2, d, a);
    AddLinkKeepsClosed(AddEnvironment(s2, d, a), LinkOf(m, d));
  }

  lemma AddLinkKeepsClosed(s: State, link: Link)
    requires StateClosed(s) && link.environment in s.environments
    ensures StateClosed(AddLink(s, link))
  {
    var s' := AddLink(s, link);
    forall id | id in s.environments ensures EnvironmentClosed(s', s.environments[id]) {
      GrowthKeepsClosed(s, s', s.environments[id]);
    }
  }

  lemma {:induction false} StatesAreClosed(connectors: seq<Machine>, c: Context)
    ensures StateClosed(AddAll(connectors, c))
    decreases |connectors|
  {
    if connectors != [] {
      StatesAreClosed(connectors[..|connectors| - 1], c);
      AddKeepsClosed(AddAll(connectors[..|connectors| - 1], c), connectors[|connectors| - 1], c);
    }
  }

  /** Whatever the connectors report, no reference in the inventory dangles, and each definition is referred to. */
  lemma InventoryIsClosed(connectors: seq<Machine>, c: Context)
    ensures var r := Finished(AddAll(connectors, c));
            Closed(r) && forall x :: x in r.definitions ==>
                exists id :: id in r.environments && r.environments[id].definition == x
  {
    StatesAreClosed(connectors, c);
  }

  // ----- What connectors tell ------------------------------------------------------------------------------------

  // From the fields of the reports alone: what the inventory is held against.

  const KINDS := map["macos" := "native_macos", "windows" := "native_windows", "wsl" := "wsl",
                     "linux" := "native_linux"]

  /** Without metadata a connector stands for an environment of its own, on the platform of all such connectors. */
  ghost function Told(m: Machine, digest: string -> string): Metadata {
    if m.compute.Some? then m.compute.value
    else
      var kind := if m.environment.Some? then m.environment.value.kind else "";
      var shown := if m.environment.Some? then m.environment.value.name else "";
      Metadata(
        environmentIdentity := Identity(1, "connector:" + digest(m.id)),
        environmentKind := if kind in KINDS then KINDS[kind] else "other",
        environmentName := if shown == "" then m.name else shown,
        parentIdentity := None,
        hostEvidence := "none", hostIdentity := None, hostName := "", hostResolution := "unresolved",
        platformKind := "local", platformName := "Local & self-hosted",
        resourceMode := "dedicated", resources := None)
  }

  ghost function PlatformTold(m: Machine, c: Context): PlatformId {
    var d := Told(m, c.digest);
    PlatformId(d.platformKind, d.platformName)
  }

  /** How often the physical machines list a connector. */
  ghost function TimesListed(machines: seq<PhysicalMachine>, connector: string): nat {
    Sum(machines, (p: PhysicalMachine) => multiset(p.connectorIds)[connector])
  }

  ghost predicate VerifiesHost(d: Metadata) {
    d.hostResolution == "verified" && d.hostName != "" && d.hostIdentity.Some?
  }

  /** The one physical machine that lists a connector makes its host. */
  ghost predicate ListedBy(m: Machine, c: Context, p: PhysicalMachine) {
    p in c.machines && m.id in p.connectorIds
  }

  ghost predicate RunsOnListed(m: Machine, c: Context, a: HostAssociation) {
    exists p :: ListedBy(m, c, p) && a == HostAssociation("user", Some(ManualHost(PlatformTold(m, c), p.id)), "manual")
  }

  /** Where an environment runs, by what its connector reports and by how often the connector is listed. */
  ghost predicate RunsOn(m: Machine, c: Context, a: HostAssociation) {
    var d, listed := Told(m, c.digest), TimesListed(c.machines, m.id);
    && (d.hostResolution == "not_applicable" ==>
          a == HostAssociation(if d.hostEvidence == "provider" then "provider" else "none", None, "not_applicable"))
    && (VerifiesHost(d) ==>
          a == HostAssociation(d.hostEvidence, Some(VerifiedHost(PlatformTold(m, c), d.hostIdentity.value)),
                               "verified"))
    && (d.hostResolution != "not_applicable" && !VerifiesHost(d) ==>
          && (listed == 0 ==> a == HostAssociation("none", None, "unresolved"))
          && (listed == 1 ==> RunsOnListed(m, c, a))
          && (listed > 1 ==> a == HostAssociation("user", None, "conflict")))
  }

  lemma MetadataIsTold(m: Machine, c: Context)
    ensures MetadataOf(m, c) == Told(m, c.digest)
  {
    assert "macos"[0] != "linux"[0];
  }

  /** Each listing counts, also if a machine lists a connector twice. */
  lemma {:induction false} ListingsExactly(p: PhysicalMachine, ids: seq<string>, connector: string)
    ensures Listings(p, ids, connector) == seq(multiset(ids)[connector], _ => p)
  {
    if ids != [] {
      var n := |ids| - 1;
      ListingsExactly(p, ids[..n], connector);
      assert ids == ids[..n] + [ids[n]];
    }
  }

  lemma {:induction false} ManualExactly(machines: seq<PhysicalMachine>, connector: string)
    ensures |Manual(machines, connector)| == TimesListed(machines, connector)
    ensures forall p :: p in Manual(machines, connector) <==> p in machines && connector in p.connectorIds
  {
    if machines != [] {
      var n := |machines| - 1;
      ManualExactly(machines[..n], connector);
      ListingsExactly(machines[n], machines[n].connectorIds, connector);
      assert machines == machines[..n] + [machines[n]];
      var listings := Listings(machines[n], machines[n].connectorIds, connector);
      assert Manual(machines, connector) == Manual(machines[..n], connector) + listings;
      assert connector in machines[n].connectorIds ==> listings[0] == machines[n];
    }
  }

  lemma {:induction false} ManualAppend(a: seq<PhysicalMachine>, b: seq<PhysicalMachine>, connector: string)
    ensures Manual(a + b, connector) == Manual(a, connector) + Manual(b, connector)
  {
    hide Listings;
    if b == [] {
      assert a + b == a;
    } else {
      var n := |b| - 1;
      ManualAppend(a, b[..n], connector);
      assert (a + b)[..|a| + n] == a + b[..n];
    }
  }

  /** The machines that list a connector come in their own order, each once for every time that it does. */
  lemma ManualInOrder(a: seq<PhysicalMachine>, p: PhysicalMachine, b: seq<PhysicalMachine>, connector: string)
    ensures Manual(a + [p] + b, connector)
            == Manual(a, connector) + seq(multiset(p.connectorIds)[connector], _ => p) + Manual(b, connector)
  {
    ManualAppend(a + [p], b, connector);
    ManualAppend(a, [p], connector);
    ListingsExactly(p, p.connectorIds, connector);
    assert [p][..0] == [];
  }

  lemma RunsOnExactly(m: Machine, c: Context, a: HostAssociation)
    ensures RunsOn(m, c, a) <==> a == AssociationOf(m, c)
  {
    MetadataIsTold(m, c);
    ManualExactly(c.machines, m.id);
    var manual := Manual(c.machines, m.id);
    if |manual| == 1 {
      assert ListedBy(m, c, manual[0]);
      assert forall p :: ListedBy(m, c, p) ==> p in manual && p == manual[0];
    }
  }

  // ----- Order does not matter where reports are merged ---------------------------------------------------------

  ghost predicate SameReports(a: seq<Machine>, b: seq<Machine>) {
    forall m :: m in a <==> m in b
  }

  /** What a connector says about the host: nothing, or that it is there, maybe with resources. */
  ghost predicate Names(m: Machine, c: Context, host: HostId) {
    exists a :: RunsOn(m, c, a) && a.host == Some(host)
  }

  /** A verified host gets the resources of reports in exclusive mode. */
  ghost predicate Offers(m: Machine, c: Context, host: HostId, r: Resources) {
    && Names(m, c, host) && host.VerifiedHost?
    && Told(m, c.digest).resourceMode == "exclusive" && Told(m, c.digest).resources == Some(r)
  }

  /** The later report, or of two at one time the one with the larger text. */
  ghost predicate Outdoes(r: Resources, other: Resources) {
    Precedes(other.reportedAt + "\0" + other.json, r.reportedAt + "\0" + r.json)
  }

  /** The largest offer, or none if there is no offer. */
  ghost predicate IsBest(connectors: seq<Machine>, c: Context, host: HostId, best: Option<Resources>) {
    && (best.Some? ==> exists m :: m in connectors && Offers(m, c, host, best.value))
    && (forall m, r :: m in connectors && Offers(m, c, host, r) ==> best.Some? && !Outdoes(r, best.value))
  }

  /** What a connector says about a host that it names, but for the resources. */
  ghost predicate HostSays(m: Machine, c: Context, id: HostId, host: Host) {
    && host.platform == id.platform == PlatformTold(m, c)
    && match id
       case VerifiedHost(_, identity) => host.identity == identity && host.name == Told(m, c.digest).hostName
       case ManualHost(_, physical) =>
         host.identity == Identity(1, "manual:" + c.digest(physical)) && CarriesName(m, c, physical, host.name)
  }

  ghost predicate CarriesName(m: Machine, c: Context, physical: string, name: string) {
    exists p :: ListedBy(m, c, p) && p.id == physical && p.name == name
  }

  ghost predicate LastNamed(connectors: seq<Machine>, c: Context, h: HostId, i: int) {
    && 0 <= i < |connectors| && Names(connectors[i], c, h)
    && forall j :: i < j < |connectors| ==> !Names(connectors[j], c, h)
  }

  ghost predicate LastSays(connectors: seq<Machine>, c: Context, h: HostId, host: Host) {
    exists i :: LastNamed(connectors, c, h, i) && HostSays(connectors[i], c, h, host)
  }

  /** A host is there if it is named, as the last connector that names it says, with the largest offer. */
  ghost predicate HostIs(hosts: map<HostId, Host>, connectors: seq<Machine>, c: Context, h: HostId) {
    && (h in hosts <==> exists m :: m in connectors && Names(m, c, h))
    && IsBest(connectors, c, h, if h in hosts then hosts[h].resources else None)
    && (h in hosts ==> LastSays(connectors, c, h, hosts[h]))
  }

  ghost predicate HostsAre(hosts: map<HostId, Host>, connectors: seq<Machine>, c: Context) {
    forall h :: HostIs(hosts, connectors, c, h)
  }

  lemma NamesExactly(m: Machine, c: Context, h: HostId)
    ensures Names(m, c, h) <==> AssociationOf(m, c).host == Some(h)
  {
    RunsOnExactly(m, c, AssociationOf(m, c));
    forall a | RunsOn(m, c, a) ensures a == AssociationOf(m, c) {
      RunsOnExactly(m, c, a);
    }
  }

  lemma OutdoesExactly(r: Resources, other: Resources)
    ensures Outdoes(r, other) <==> CompareText(ResourceKey(r), ResourceKey(other)) > 0
  {
    TextOrderIsTotal();
    CompareTextExactly(ResourceKey(other), ResourceKey(r));
    assert other.reportedAt + "\0" + other.json == ResourceKey(other) && r.reportedAt + "\0" + r.json == ResourceKey(r);
  }

  lemma PreferredIsBest(connectors: seq<Machine>, m: Machine, c: Context, host: HostId, current: Option<Resources>,
                        offer: Option<Resources>)
    requires IsBest(connectors, c, host, current) && forall r :: offer == Some(r) <==> Offers(m, c, host, r)
    ensures IsBest(connectors + [m], c, host, PreferredResources(current, offer))
  {
    TextOrderIsTotal();
    var all, best := connectors + [m], PreferredResources(current, offer);
    assert forall x :: x in all <==> x in connectors || x == m;
    forall r, other ensures Outdoes(r, other) <==> CompareText(ResourceKey(r), ResourceKey(other)) > 0 {
      OutdoesExactly(r, other);
    }
    if best.Some? {
      if best == current {
        var x :| x in connectors && Offers(x, c, host, best.value);
        assert x in all && Offers(x, c, host, best.value);
      } else {
        assert m in all && Offers(m, c, host, best.value);
      }
    }
  }

  /** One report adds the host it names, and offers it its resources. */
  lemma AddHostIs(hosts: map<HostId, Host>, m: Machine, c: Context, h: HostId, current: Option<Resources>)
    returns (offer: Option<Resources>)
    requires current == if h in hosts then hosts[h].resources else None
    ensures var hosts' := AddHost(hosts, MetadataOf(m, c), Manual(c.machines, m.id), c.digest);
            && (h in hosts' <==> h in hosts || Names(m, c, h))
            && (h in hosts && !Names(m, c, h) ==> hosts'[h] == hosts[h])
            && (Names(m, c, h) ==> HostSays(m, c, h, hosts'[h]))
            && (h.ManualHost? && Names(m, c, h) ==> hosts'[h].resources == None)
            && (h.VerifiedHost? ==>
                  (if h in hosts' then hosts'[h].resources else None) == PreferredResources(current, offer))
    ensures forall r :: offer == Some(r) <==> Offers(m, c, h, r)
  {
    NamesExactly(m, c, h);
    MetadataIsTold(m, c);
    ManualExactly(c.machines, m.id);
    var manual, d := Manual(c.machines, m.id), Told(m, c.digest);
    if Names(m, c, h) && h.ManualHost? {
      assert ListedBy(m, c, manual[0]);
    }
    offer := if Names(m, c, h) && h.VerifiedHost? && d.resourceMode == "exclusive" then d.resources else None;
  }

  lemma AddReportHost(hosts: map<HostId, Host>, connectors: seq<Machine>, m: Machine, c: Context, h: HostId)
    requires HostIs(hosts, connectors, c, h)
    ensures HostIs(AddHost(hosts, MetadataOf(m, c), Manual(c.machines, m.id), c.digest), connectors + [m], c, h)
  {
    hide AddHost, Names, HostSays, Offers;
    var current := if h in hosts then hosts[h].resources else None;
    var offer := AddHostIs(hosts, m, c, h, current);
    var hosts' := AddHost(hosts, MetadataOf(m, c), Manual(c.machines, m.id), c.digest);
    NamedAppend(connectors, m, c, h);
    var best := if h in hosts' then hosts'[h].resources else None;
    if h.ManualHost? {
      NoOffers(connectors, c, h, current);
      NoOffers(connectors + [m], c, h, best);
    } else {
      PreferredIsBest(connectors, m, c, h, current, offer);
    }
    if h in hosts' {
      LastAppend(connectors, m, c, h, hosts'[h]);
    }
  }

  /** The last report that names a host is the new one, or the one it was. */
  lemma LastAppend(connectors: seq<Machine>, m: Machine, c: Context, h: HostId, host: Host)
    requires if Names(m, c, h) then HostSays(m, c, h, host) else LastSays(connectors, c, h, host)
    ensures LastSays(connectors + [m], c, h, host)
  {
    hide Names, HostSays;
    var all := connectors + [m];
    if Names(m, c, h) {
      assert LastNamed(all, c, h, |connectors|) && all[|connectors|] == m;
    } else {
      var i :| LastNamed(connectors, c, h, i) && HostSays(connectors[i], c, h, host);
      assert LastNamed(all, c, h, i) && all[i] == connectors[i];
    }
  }

  lemma NamedAppend(connectors: seq<Machine>, m: Machine, c: Context, h: HostId)
    ensures (exists x :: x in connectors + [m] && Names(x, c, h))
        <==> (exists x :: x in connectors && Names(x, c, h)) || Names(m, c, h)
  {
    var all := connectors + [m];
    assert forall x :: x in all <==> x in connectors || x == m;
  }

  lemma NoOffers(connectors: seq<Machine>, c: Context, h: HostId, best: Option<Resources>)
    requires h.ManualHost?
    ensures IsBest(connectors, c, h, best) <==> best == None
  {
  }

  lemma NoHosts(c: Context, h: HostId)
    ensures HostIs(map[], [], c, h)
  {
  }

  lemma {:induction false} AllHosts(connectors: seq<Machine>, c: Context)
    ensures HostsAre(AddAll(connectors, c).hosts, connectors, c)
    decreases |connectors|
  {
    hide HostIs, AddHost, Add;
    if connectors == [] {
      forall h ensures HostIs(AddAll(connectors, c).hosts, connectors, c, h) {
        NoHosts(c, h);
      }
    } else {
      var n := |connectors| - 1;
      AllHosts(connectors[..n], c);
      var hosts := AddAll(connectors[..n], c).hosts;
      HostsOfAdd(AddAll(connectors[..n], c), connectors[n], c);
      assert connectors == connectors[..n] + [connectors[n]];
      forall h ensures HostIs(AddAll(connectors, c).hosts, connectors, c, h) {
        AddReportHost(hosts, connectors[..n], connectors[n], c, h);
      }
    }
  }

  lemma HostsOfAdd(s: State, m: Machine, c: Context)
    ensures Add(s, m, c).hosts == AddHost(s.hosts, MetadataOf(m, c), Manual(c.machines, m.id), c.digest)
  {
  }

  /** The largest offer is one, so it does not matter who comes first. */
  lemma BestIsUnique(a: seq<Machine>, b: seq<Machine>, c: Context, host: HostId, x: Option<Resources>,
                     y: Option<Resources>)
    requires SameReports(a, b) && IsBest(a, c, host, x) && IsBest(b, c, host, y)
    ensures x == y
  {
    TextOrderIsTotal();
    if x.Some? {
      var m :| m in a && Offers(m, c, host, x.value);
      assert m in b && y.Some?;
    }
    if y.Some? {
      var m :| m in b && Offers(m, c, host, y.value);
      assert m in a && x.Some?;
      OutdoesExactly(x.value, y.value);
      OutdoesExactly(y.value, x.value);
      KeyTellsApart(x.value, y.value);
    }
  }

  /** The last NUL of a key separates its parts, whatever the report time holds. */
  lemma KeyTellsApart(x: Resources, y: Resources)
    requires ResourceKey(x) == ResourceKey(y)
    ensures x == y
  {
    SeparatorIsLast(x, y);
    SeparatorIsLast(y, x);
    var n := |x.reportedAt|;
    assert x.reportedAt == ResourceKey(x)[..n] && y.reportedAt == ResourceKey(y)[..n];
    assert x.json == ResourceKey(x)[n + 1..] && y.json == ResourceKey(y)[n + 1..];
  }

  lemma SeparatorIsLast(x: Resources, y: Resources)
    requires ResourceKey(x) == ResourceKey(y)
    ensures |y.reportedAt| <= |x.reportedAt|
  {
    var n := |y.reportedAt|;
    assert ResourceKey(y)[n] == '\0';
    if |x.reportedAt| < n {
      NoLaterNul(x, n);
    }
  }

  lemma NoLaterNul(x: Resources, n: nat)
    requires |x.reportedAt| < n < |ResourceKey(x)|
    ensures ResourceKey(x)[n] != '\0'
  {
    assert ResourceKey(x)[n] == x.json[n - |x.reportedAt| - 1];
  }

  lemma SameHosts(x: map<HostId, Host>, y: map<HostId, Host>, a: seq<Machine>, b: seq<Machine>, c: Context, h: HostId)
    requires HostIs(x, a, c, h) && HostIs(y, b, c, h) && SameReports(a, b)
    ensures h in x <==> h in y
    ensures h in x ==> x[h].resources == y[h].resources
  {
    if h in x {
      var m :| m in a && Names(m, c, h);
      assert m in b;
    }
    if h in y {
      var m :| m in b && Names(m, c, h);
      assert m in a;
      BestIsUnique(a, b, c, h, x[h].resources, y[h].resources);
    }
  }

  /** The same reports in any order, or repeated: the same hosts with the same resources. */
  lemma ResourcesDoNotDependOnOrder(a: seq<Machine>, b: seq<Machine>, c: Context, h: HostId)
    requires SameReports(a, b)
    ensures var x, y := AddAll(a, c).hosts, AddAll(b, c).hosts;
            (h in x <==> h in y) && (h in x ==> x[h].resources == y[h].resources)
  {
    AllHosts(a, c);
    AllHosts(b, c);
    SameHosts(AddAll(a, c).hosts, AddAll(b, c).hosts, a, b, c, h);
  }

  // ----- Hosts of environments ----------------------------------------------------------------------------------

  ghost predicate Reports(m: Machine, c: Context, id: EnvironmentId) {
    id == EnvironmentId(PlatformTold(m, c), Told(m, c.digest).environmentIdentity)
  }

  ghost predicate ReportsParent(m: Machine, c: Context, id: EnvironmentId) {
    id.platform == PlatformTold(m, c) && Told(m, c.digest).parentIdentity == Some(id.identity)
  }

  ghost predicate Differ(connectors: seq<Machine>, c: Context, id: EnvironmentId, m: Machine, n: Machine) {
    && m in connectors && n in connectors && Reports(m, c, id) && Reports(n, c, id)
    && exists a :: RunsOn(m, c, a) && !RunsOn(n, c, a)
  }

  /** The value that all who report the environment give, or a conflict between two of them. */
  ghost predicate Settled(connectors: seq<Machine>, c: Context, id: EnvironmentId, a: HostAssociation) {
    || (forall m :: m in connectors && Reports(m, c, id) ==> RunsOn(m, c, a))
    || (a == HostAssociation("user", None, "conflict") && exists m, n :: Differ(connectors, c, id, m, n))
  }

  ghost predicate IsReported(connectors: seq<Machine>, c: Context, id: EnvironmentId) {
    exists m :: m in connectors && Reports(m, c, id)
  }

  ghost predicate IsParent(connectors: seq<Machine>, c: Context, id: EnvironmentId) {
    exists m :: m in connectors && ReportsParent(m, c, id)
  }

  /** What a report says of its environment, but for where it runs. */
  ghost predicate ReportedAs(m: Machine, c: Context, e: EnvironmentRecord) {
    var d := Told(m, c.digest);
    && e.definition == e.kind == d.environmentKind && e.identity == d.environmentIdentity && e.name == d.environmentName
    && (e.parent == None <==> d.parentIdentity == None) && (e.parent.Some? ==> ReportsParent(m, c, e.parent.value))
    && e.platform == PlatformTold(m, c) && e.resourceMode == d.resourceMode
    && (d.resourceMode == "exclusive" ==> e.resources == None)
    && (d.resourceMode != "exclusive" ==> e.resources == d.resources)
  }

  /** What is known of an environment from a report that names it as the parent. */
  ghost predicate StoodInFor(m: Machine, c: Context, id: EnvironmentId, e: EnvironmentRecord) {
    && RunsOn(m, c, e.association)
    && e == EnvironmentRecord("other", e.association, id.identity, "other",
                              Told(m, c.digest).environmentName + " parent",
                              None, id.platform, "shared", None)
  }

  ghost predicate FirstReport(connectors: seq<Machine>, c: Context, id: EnvironmentId, i: int) {
    && 0 <= i < |connectors| && Reports(connectors[i], c, id)
    && forall j :: 0 <= j < i ==> !Reports(connectors[j], c, id)
  }

  ghost predicate FirstParent(connectors: seq<Machine>, c: Context, id: EnvironmentId, i: int) {
    && 0 <= i < |connectors| && ReportsParent(connectors[i], c, id)
    && forall j :: 0 <= j < i ==> !ReportsParent(connectors[j], c, id)
  }

  ghost predicate FirstReportSays(connectors: seq<Machine>, c: Context, id: EnvironmentId, e: EnvironmentRecord) {
    exists i :: FirstReport(connectors, c, id, i) && ReportedAs(connectors[i], c, e)
  }

  ghost predicate FirstParentSays(connectors: seq<Machine>, c: Context, id: EnvironmentId, e: EnvironmentRecord) {
    exists i :: FirstParent(connectors, c, id, i) && StoodInFor(connectors[i], c, id, e)
  }

  /**
   An environment that is reported is there as the first of its reports says, and where its reports agree that it
   runs; any other is a stand-in, as the first report says that names it as the parent.
   */
  ghost predicate EnvironmentIs(s: State, connectors: seq<Machine>, c: Context, id: EnvironmentId) {
    && (id in s.placeholders <==> id in s.environments && !IsReported(connectors, c, id))
    && EnvironmentSays(s.environments, connectors, c, id)
  }

  ghost predicate EnvironmentSays(environments: map<EnvironmentId, EnvironmentRecord>, connectors: seq<Machine>,
                                  c: Context, id: EnvironmentId) {
    if IsReported(connectors, c, id) then
      && id in environments && FirstReportSays(connectors, c, id, environments[id])
      && Settled(connectors, c, id, environments[id].association)
    else
      && (id in environments <==> IsParent(connectors, c, id))
      && (id in environments ==> FirstParentSays(connectors, c, id, environments[id]))
  }

  lemma ReportsExactly(m: Machine, c: Context, id: EnvironmentId)
    ensures Reports(m, c, id) <==> EnvironmentOf(MetadataOf(m, c)) == id
    ensures ReportsParent(m, c, id) <==> ParentOf(MetadataOf(m, c)) == Some(id)
  {
    MetadataIsTold(m, c);
  }

  lemma ReportedAsExactly(m: Machine, c: Context, a: HostAssociation)
    ensures ReportedAs(m, c, Reported(MetadataOf(m, c), a))
  {
    MetadataIsTold(m, c);
  }

  lemma StoodInForExactly(m: Machine, c: Context, id: EnvironmentId)
    requires ReportsParent(m, c, id)
    ensures MetadataOf(m, c).parentIdentity.Some?
    ensures StoodInFor(m, c, id, Placeholder(MetadataOf(m, c), AssociationOf(m, c)))
  {
    MetadataIsTold(m, c);
    RunsOnExactly(m, c, AssociationOf(m, c));
  }

  lemma ReportedAppend(connectors: seq<Machine>, m: Machine, c: Context, id: EnvironmentId)
    ensures IsReported(connectors + [m], c, id) <==> IsReported(connectors, c, id) || Reports(m, c, id)
    ensures IsParent(connectors + [m], c, id) <==> IsParent(connectors, c, id) || ReportsParent(m, c, id)
  {
    hide Reports, ReportsParent;
    var all := connectors + [m];
    assert forall x :: x in all <==> x in connectors || x == m;
    assert m in all;
    if IsReported(connectors, c, id) {
      var x :| x in connectors && Reports(x, c, id);
      assert x in all;
    }
    if IsParent(connectors, c, id) {
      var x :| x in connectors && ReportsParent(x, c, id);
      assert x in all;
    }
  }

  /** The first report stays the first. */
  lemma FirstReportAppend(connectors: seq<Machine>, m: Machine, c: Context, id: EnvironmentId, e: EnvironmentRecord)
    requires if IsReported(connectors, c, id) then FirstReportSays(connectors, c, id, e)
             else Reports(m, c, id) && ReportedAs(m, c, e)
    ensures FirstReportSays(connectors + [m], c, id, e)
  {
    hide Reports, ReportedAs;
    var all := connectors + [m];
    if IsReported(connectors, c, id) {
      var i :| FirstReport(connectors, c, id, i) && ReportedAs(connectors[i], c, e);
      assert FirstReport(all, c, id, i) && all[i] == connectors[i];
    } else {
      assert FirstReport(all, c, id, |connectors|) && all[|connectors|] == m;
    }
  }

  lemma FirstParentAppend(connectors: seq<Machine>, m: Machine, c: Context, id: EnvironmentId, e: EnvironmentRecord)
    requires if IsParent(connectors, c, id) then FirstParentSays(connectors, c, id, e)
             else ReportsParent(m, c, id) && StoodInFor(m, c, id, e)
    ensures FirstParentSays(connectors + [m], c, id, e)
  {
    hide ReportsParent, StoodInFor;
    var all := connectors + [m];
    if IsParent(connectors, c, id) {
      var i :| FirstParent(connectors, c, id, i) && StoodInFor(connectors[i], c, id, e);
      assert FirstParent(all, c, id, i) && all[i] == connectors[i];
    } else {
      assert FirstParent(all, c, id, |connectors|) && all[|connectors|] == m;
    }
  }

  /** One more report of an environment: the value stays if it is the same, and else there is a conflict. */
  lemma SettledAppend(connectors: seq<Machine>, m: Machine, c: Context, id: EnvironmentId, a: HostAssociation)
    requires IsReported(connectors, c, id) && Settled(connectors, c, id, a)
    ensures Settled(connectors + [m], c, id, if Reports(m, c, id) && !RunsOn(m, c, a) then CONFLICT else a)
  {
    hide Reports, RunsOn;
    var all := connectors + [m];
    assert forall x :: x in all <==> x in connectors || x == m;
    if exists x, y :: Differ(connectors, c, id, x, y) {
      var x, y :| Differ(connectors, c, id, x, y);
      assert Differ(all, c, id, x, y);
    } else if Reports(m, c, id) && !RunsOn(m, c, a) {
      var x :| x in connectors && Reports(x, c, id);
      assert Differ(all, c, id, x, m);
    }
  }

  lemma FirstReportSettles(connectors: seq<Machine>, m: Machine, c: Context, id: EnvironmentId)
    requires !IsReported(connectors, c, id)
    ensures Settled(connectors + [m], c, id, AssociationOf(m, c))
  {
    RunsOnExactly(m, c, AssociationOf(m, c));
    assert forall x :: x in connectors + [m] <==> x in connectors || x == m;
  }

  /** What is there of an environment after a report: what it says itself, what it says of its parent, or what was. */
  lemma AddedRecord(s: State, m: Machine, c: Context, id: EnvironmentId)
    requires id in s.placeholders ==> id in s.environments
    ensures var s', known := Add(s, m, c), id in s.environments && id !in s.placeholders;
      && (Reports(m, c, id) ==>
            && id in s'.environments && id !in s'.placeholders
            && (!known ==> s'.environments[id] == Reported(MetadataOf(m, c), AssociationOf(m, c)))
            && (known ==> s'.environments[id] == s.environments[id].(association :=
                            if RunsOn(m, c, s.environments[id].association) then s.environments[id].association
                            else CONFLICT)))
      && (!Reports(m, c, id) ==>
            && (id in s'.environments <==> id in s.environments || ReportsParent(m, c, id))
            && (id in s'.placeholders <==> id in s.placeholders || (id in s'.environments && id !in s.environments))
            && (id in s.environments ==> s'.environments[id] == s.environments[id])
            && (id !in s.environments && ReportsParent(m, c, id) ==>
                  MetadataOf(m, c).parentIdentity.Some?
                  && s'.environments[id] == Placeholder(MetadataOf(m, c), AssociationOf(m, c))))
  {
    hide Add, MetadataOf, RunsOn, Reports, ReportsParent, AssociationOf, Reported, Placeholder;
    ReportsExactly(m, c, id);
    if id in s.environments {
      RunsOnExactly(m, c, s.environments[id].association);
    }
    AddedTables(s, m, c);
  }

  /** A report changes the environments and the stand-ins by itself and its parent alone. */
  lemma AddedTables(s: State, m: Machine, c: Context)
    ensures var d, a, s' := MetadataOf(m, c), AssociationOf(m, c), Add(s, m, c);
            var t := AddEnvironment(AddParent(s, d, a), d, a);
            s'.environments == t.environments && s'.placeholders == t.placeholders
  {
    hide AddParent, AddEnvironment, AddHost, Association, MetadataOf, Manual;
    var d, manual := MetadataOf(m, c), Manual(c.machines, m.id);
    SameTables(s, AddReport(s, d, manual, c.digest), d, Association(d, manual));
  }

  lemma SameTables(s: State, t: State, d: Metadata, a: HostAssociation)
    requires s.environments == t.environments && s.placeholders == t.placeholders
    ensures var s', t' := AddEnvironment(AddParent(s, d, a), d, a), AddEnvironment(AddParent(t, d, a), d, a);
            s'.environments == t'.environments && s'.placeholders == t'.placeholders
  {
    hide Placeholder, Reported;
    var s1, t1 := AddParent(s, d, a), AddParent(t, d, a);
    assert s1.environments == t1.environments && s1.placeholders == t1.placeholders;
    hide AddParent;
  }

  lemma AddIs(s: State, connectors: seq<Machine>, m: Machine, c: Context, id: EnvironmentId)
    requires EnvironmentIs(s, connectors, c, id)
    ensures EnvironmentIs(Add(s, m, c), connectors + [m], c, id)
  {
    hide Add, Reports, ReportsParent, RunsOn, Settled, ReportedAs, StoodInFor, FirstReportSays, FirstParentSays;
    hide IsReported, IsParent, AssociationOf;
    AddedRecord(s, m, c, id);
    ReportedAppend(connectors, m, c, id);
    var s' := Add(s, m, c);
    if IsReported(connectors, c, id) {
      SettledAppend(connectors, m, c, id, s.environments[id].association);
      SameButAssociation(connectors, c, id, s.environments[id], s'.environments[id]);
      FirstReportAppend(connectors, m, c, id, s'.environments[id]);
    } else if Reports(m, c, id) {
      FirstReportSettles(connectors, m, c, id);
      ReportedAsExactly(m, c, AssociationOf(m, c));
      FirstReportAppend(connectors, m, c, id, s'.environments[id]);
    } else if id in s'.environments {
      if ReportsParent(m, c, id) {
        StoodInForExactly(m, c, id);
      }
      FirstParentAppend(connectors, m, c, id, s'.environments[id]);
    }
  }

  lemma SameButAssociation(connectors: seq<Machine>, c: Context, id: EnvironmentId, e: EnvironmentRecord,
                           f: EnvironmentRecord)
    requires FirstReportSays(connectors, c, id, e) && f == e.(association := f.association)
    ensures FirstReportSays(connectors, c, id, f)
  {
    hide Reports, ReportsParent;
    var i :| FirstReport(connectors, c, id, i) && ReportedAs(connectors[i], c, e);
    assert ReportedAs(connectors[i], c, f);
  }

  lemma {:induction false} AllEnvironments(connectors: seq<Machine>, c: Context, id: EnvironmentId)
    ensures EnvironmentIs(AddAll(connectors, c), connectors, c, id)
    decreases |connectors|
  {
    hide Add;
    if connectors != [] {
      var n := |connectors| - 1;
      AllEnvironments(connectors[..n], c, id);
      AddIs(AddAll(connectors[..n], c), connectors[..n], connectors[n], c, id);
      assert connectors == connectors[..n] + [connectors[n]];
    }
  }

  /**
   The same reports in any order, or repeated: an environment that reports itself has the host that all its
   reports agree on, or a conflict if two differ.
   */
  lemma AssociationsDoNotDependOnOrder(a: seq<Machine>, b: seq<Machine>, c: Context, id: EnvironmentId)
    requires SameReports(a, b) && IsReported(a, c, id)
    ensures var x, y := AddAll(a, c).environments, AddAll(b, c).environments;
            && id in x && id in y && x[id].association == y[id].association
            && Settled(a, c, id, x[id].association)
  {
    AllEnvironments(a, c, id);
    AllEnvironments(b, c, id);
    var m :| m in a && Reports(m, c, id);
    assert m in b;
    assert IsReported(b, c, id);
    SettledIsUnique(a, b, c, id, AddAll(a, c).environments[id].association, AddAll(b, c).environments[id].association);
  }

  lemma SettledIsUnique(a: seq<Machine>, b: seq<Machine>, c: Context, id: EnvironmentId, x: HostAssociation,
                        y: HostAssociation)
    requires SameReports(a, b) && IsReported(a, c, id) && Settled(a, c, id, x) && Settled(b, c, id, y)
    ensures x == y
  {
    hide Reports, RunsOn;
    var m :| m in a && Reports(m, c, id);
    assert m in b;
    forall p, q ensures Differ(a, c, id, p, q) <==> Differ(b, c, id, p, q) {
    }
    RunsOnExactly(m, c, x);
    RunsOnExactly(m, c, y);
    if p, q :| Differ(a, c, id, p, q) {
      DifferentAssociations(a, c, id, p, q, x);
      DifferentAssociations(a, c, id, p, q, y);
    }
  }

  /** No one value is given by two reports that differ. */
  lemma DifferentAssociations(connectors: seq<Machine>, c: Context, id: EnvironmentId, p: Machine, q: Machine,
                              a: HostAssociation)
    requires Differ(connectors, c, id, p, q)
    ensures !(RunsOn(p, c, a) && RunsOn(q, c, a))
  {
    hide RunsOn;
    var b :| RunsOn(p, c, b) && !RunsOn(q, c, b);
    RunsOnExactly(p, c, a);
    RunsOnExactly(p, c, b);
  }

  // ----- The whole inventory -------------------------------------------------------------------------------------

  ghost predicate LinkSays(m: Machine, c: Context, l: Link) {
    && l.connector == m.id && Reports(m, c, l.environment)
    && l.associatedAt == if m.lastSeen == None then "1970-01-01T00:00:00.000Z" else m.lastSeen.value
  }

  /** The platforms of the reports, the definitions that are used, and a link for each connector, in order. */
  ghost predicate ListsAre(r: Snapshot, connectors: seq<Machine>, c: Context) {
    && (forall p :: p in r.platforms <==> exists m :: m in connectors && PlatformTold(m, c) == p)
    && (forall x :: x in r.definitions <==> exists id :: id in r.environments && r.environments[id].definition == x)
    && |r.links| == |connectors| && forall i :: 0 <= i < |connectors| ==> LinkSays(connectors[i], c, r.links[i])
  }

  /** All that the inventory holds, from the fields of the reports. */
  ghost predicate Describes(r: Snapshot, connectors: seq<Machine>, c: Context) {
    && HostsAre(r.hosts, connectors, c)
    && (forall id :: EnvironmentSays(r.environments, connectors, c, id))
    && ListsAre(r, connectors, c)
  }

  lemma AddedLists(s: State, m: Machine, c: Context) returns (l: Link)
    ensures var s' := Add(s, m, c); s'.platforms == s.platforms + {PlatformTold(m, c)} && s'.links == s.links + [l]
    ensures LinkSays(m, c, l)
  {
    hide AddHost, Association, Manual;
    MetadataIsTold(m, c);
    l := LinkOf(m, MetadataOf(m, c));
  }

  lemma {:induction false} PlatformsAndLinks(connectors: seq<Machine>, c: Context)
    ensures var s := AddAll(connectors, c);
      && (forall p :: p in s.platforms <==> exists m :: m in connectors && PlatformTold(m, c) == p)
      && |s.links| == |connectors| && forall i :: 0 <= i < |connectors| ==> LinkSays(connectors[i], c, s.links[i])
    decreases |connectors|
  {
    hide Add, PlatformTold, LinkSays;
    if connectors != [] {
      var n := |connectors| - 1;
      var m := connectors[n];
      PlatformsAndLinks(connectors[..n], c);
      var l := AddedLists(AddAll(connectors[..n], c), m, c);
      assert connectors == connectors[..n] + [m];
      assert m in connectors;
    }
  }

  lemma InventoryIsDescribed(connectors: seq<Machine>, c: Context)
    ensures Describes(Finished(AddAll(connectors, c)), connectors, c)
  {
    hide EnvironmentSays, LinkSays, AddAll;
    AllHosts(connectors, c);
    forall id ensures EnvironmentSays(AddAll(connectors, c).environments, connectors, c, id) {
      AllEnvironments(connectors, c, id);
    }
    PlatformsAndLinks(connectors, c);
    InventoryIsClosed(connectors, c);
  }

  lemma SameName(m: Machine, c: Context, h: HostId, x: Host, y: Host)
    requires Names(m, c, h) && HostSays(m, c, h, x) && HostSays(m, c, h, y) && x.resources == y.resources
    ensures x == y
  {
    if h.ManualHost? {
      NamesExactly(m, c, h);
      ManualExactly(c.machines, m.id);
      var manual := Manual(c.machines, m.id);
      assert forall p :: ListedBy(m, c, p) ==> p in manual && p == manual[0];
    }
  }

  lemma SameHost(x: map<HostId, Host>, y: map<HostId, Host>, connectors: seq<Machine>, c: Context, h: HostId)
    requires HostIs(x, connectors, c, h) && HostIs(y, connectors, c, h) && h in x && h in y
    ensures x[h] == y[h]
  {
    hide Names, HostSays, IsBest;
    SameHosts(x, y, connectors, connectors, c, h);
    var i :| LastNamed(connectors, c, h, i) && HostSays(connectors[i], c, h, x[h]);
    var j :| LastNamed(connectors, c, h, j) && HostSays(connectors[j], c, h, y[h]);
    assert i == j;
    SameName(connectors[i], c, h, x[h], y[h]);
  }

  lemma SameEnvironment(x: map<EnvironmentId, EnvironmentRecord>, y: map<EnvironmentId, EnvironmentRecord>,
                        connectors: seq<Machine>, c: Context, id: EnvironmentId)
    requires EnvironmentSays(x, connectors, c, id) && EnvironmentSays(y, connectors, c, id) && id in x && id in y
    ensures x[id] == y[id]
  {
    hide Settled, RunsOn;
    if IsReported(connectors, c, id) {
      SettledIsUnique(connectors, connectors, c, id, x[id].association, y[id].association);
      SameFirstReport(connectors, c, id, x[id], y[id]);
    } else {
      SameFirstParent(connectors, c, id, x[id], y[id]);
    }
  }

  lemma SameFirstReport(connectors: seq<Machine>, c: Context, id: EnvironmentId, x: EnvironmentRecord,
                        y: EnvironmentRecord)
    requires FirstReportSays(connectors, c, id, x) && FirstReportSays(connectors, c, id, y)
    requires x.association == y.association
    ensures x == y
  {
    hide Reports;
    var i :| FirstReport(connectors, c, id, i) && ReportedAs(connectors[i], c, x);
    var j :| FirstReport(connectors, c, id, j) && ReportedAs(connectors[j], c, y);
    assert i == j;
  }

  lemma SameFirstParent(connectors: seq<Machine>, c: Context, id: EnvironmentId, x: EnvironmentRecord,
                        y: EnvironmentRecord)
    requires FirstParentSays(connectors, c, id, x) && FirstParentSays(connectors, c, id, y)
    ensures x == y
  {
    hide ReportsParent, RunsOn;
    var i :| FirstParent(connectors, c, id, i) && StoodInFor(connectors[i], c, id, x);
    var j :| FirstParent(connectors, c, id, j) && StoodInFor(connectors[j], c, id, y);
    assert i == j;
    RunsOnExactly(connectors[i], c, x.association);
    RunsOnExactly(connectors[i], c, y.association);
  }

  lemma SameLists(r: Snapshot, t: Snapshot, connectors: seq<Machine>, c: Context)
    requires ListsAre(r, connectors, c) && ListsAre(t, connectors, c) && r.environments == t.environments
    ensures r.platforms == t.platforms && r.definitions == t.definitions && r.links == t.links
  {
    hide PlatformTold;
    forall p ensures p in r.platforms <==> p in t.platforms {
    }
    forall x ensures x in r.definitions <==> x in t.definitions {
    }
  }

  /** The description leaves nothing open: the inventory is what the fields of the reports make it. */
  lemma DescribedExactly(r: Snapshot, connectors: seq<Machine>, c: Context)
    ensures Describes(r, connectors, c) <==> r == Finished(AddAll(connectors, c))
  {
    hide HostIs, EnvironmentSays, ListsAre, AddAll, Finished;
    var t := Finished(AddAll(connectors, c));
    InventoryIsDescribed(connectors, c);
    if Describes(r, connectors, c) {
      assert r.hosts == t.hosts by {
        forall h ensures h in r.hosts <==> h in t.hosts {
          SameKeys(r, t, connectors, c, h);
        }
        forall h | h in r.hosts ensures r.hosts[h] == t.hosts[h] {
          SameHost(r.hosts, t.hosts, connectors, c, h);
        }
      }
      assert r.environments == t.environments by {
        forall id ensures id in r.environments <==> id in t.environments {
          SameIds(r, t, connectors, c, id);
        }
        forall id | id in r.environments ensures r.environments[id] == t.environments[id] {
          SameEnvironment(r.environments, t.environments, connectors, c, id);
        }
      }
      SameLists(r, t, connectors, c);
    }
  }

  lemma SameKeys(r: Snapshot, t: Snapshot, connectors: seq<Machine>, c: Context, h: HostId)
    requires HostIs(r.hosts, connectors, c, h) && HostIs(t.hosts, connectors, c, h)
    ensures h in r.hosts <==> h in t.hosts
  {
  }

  lemma SameIds(r: Snapshot, t: Snapshot, connectors: seq<Machine>, c: Context, id: EnvironmentId)
    requires EnvironmentSays(r.environments, connectors, c, id) && EnvironmentSays(t.environments, connectors, c, id)
    ensures id in r.environments <==> id in t.environments
  {
  }
}
