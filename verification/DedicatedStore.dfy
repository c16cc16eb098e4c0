/**
 The AppRun Dedicated control-plane store: maps of resources with an order
 slice beside each, cascading deletes, and per-application version counters.
 Fresh identifiers are parameters.
 */
module DedicatedStore {
  import opened Prelude
  import opened OrderLists
  import CursorPaging

  datatype Application = Application(
    name: string,
    clusterID: string,
    activeVersion: Option<int>,
    desiredCount: Option<int>)

  datatype Version = Version(
    number: int,
    scalingMode: string,
    fixedScale: Option<int>,
    minScale: Option<int>)

  datatype ScalingGroup = ScalingGroup(clusterID: string, name: string, minNodes: int, workerNodeCount: int)

  datatype WorkerNode = WorkerNode(clusterID: string, groupID: string, draining: bool)

  datatype LoadBalancer = LoadBalancer(clusterID: string, groupID: string, name: string)

  // ---------------------------------------------------------------- version numbers

  const TWO_TO_THE_32 := 0x1_0000_0000

  function Increment32(x: int): int {
    if x == 0x7FFF_FFFF then -0x8000_0000 else x + 1
  }

  /** A 32-bit signed counter after `n` increments from zero. */
  function Wrap32(n: nat): int {
    (n + 0x8000_0000) % TWO_TO_THE_32 - 0x8000_0000
  }

  lemma Remainder(x: int, q: int, r: int)
    requires x == q * TWO_TO_THE_32 + r && 0 <= r < TWO_TO_THE_32
    ensures x % TWO_TO_THE_32 == r
  {
  }

  lemma IncrementWraps(n: nat)
    ensures Increment32(Wrap32(n)) == Wrap32(n + 1)
  {
    var x := n + 0x8000_0000;
    var q, r := x / TWO_TO_THE_32, x % TWO_TO_THE_32;
    if r == TWO_TO_THE_32 - 1 {
      Remainder(x + 1, q + 1, 0);
    } else {
      Remainder(x + 1, q, r + 1);
    }
  }

  /** Two version numbers of one application coincide exactly when a multiple of 2^32 lies between them. */
  lemma NumbersRepeatAfterWrap(i: nat, j: nat)
    requires i <= j
    ensures Wrap32(i) == Wrap32(j) <==> (j - i) % TWO_TO_THE_32 == 0
  {
    SameRemainder(i + 0x8000_0000, j + 0x8000_0000);
  }

  lemma SameRemainder(a: nat, b: nat)
    ensures a % TWO_TO_THE_32 == b % TWO_TO_THE_32 <==> (b - a) % TWO_TO_THE_32 == 0
  {
    var qa, qb, ra, rb := a / TWO_TO_THE_32, b / TWO_TO_THE_32, a % TWO_TO_THE_32, b % TWO_TO_THE_32;
    if rb >= ra {
      Remainder(b - a, qb - qa, rb - ra);
    } else {
      Remainder(b - a, qb - qa - 1, rb - ra + TWO_TO_THE_32);
    }
  }

  // ---------------------------------------------------------------- applications

  /** `created` counts how many versions each live application was ever given. */
  datatype AppState = AppState(
    applications: map<string, Application>, order: seq<string>,
    versions: map<string, seq<Version>>, versionSeqs: map<string, int>, created: map<string, nat>)

  /** Every number was issued by the counter, and none is listed twice before the counter wraps. */
  ghost predicate VersionsIssued(vs: seq<Version>, created: nat) {
    && (forall v :: v in vs ==> exists k :: 1 <= k <= created && v.number == Wrap32(k))
    && (created < TWO_TO_THE_32 ==> forall i, j :: 0 <= i < j < |vs| ==> vs[i].number != vs[j].number)
  }

  ghost predicate CountersAgree(a: AppState) {
    && a.versionSeqs.Keys == a.applications.Keys == a.created.Keys
    && forall id :: id in a.applications ==> a.versionSeqs[id] == Wrap32(a.created[id])
  }

  ghost predicate ListsAgree(a: AppState) {
    && a.versions.Keys <= a.created.Keys
    && forall id :: id in a.versions ==> VersionsIssued(a.versions[id], a.created[id])
  }

  ghost predicate AppsInv(a: AppState) {
    Ordered(a.order, a.applications) && CountersAgree(a) && ListsAgree(a)
  }

  function VersionsOf(versions: map<string, seq<Version>>, id: string): seq<Version> {
    if id in versions then versions[id] else []
  }

  predicate HasVersion(vs: seq<Version>, number: int) {
    exists i :: 0 <= i < |vs| && vs[i].number == number
  }

  /** What a version is looked up and deleted by. */
  function NumberOf(v: Version): int {
    v.number
  }

  /** Activating copies the scale of the first version with the number, if its mode has one. */
  function DesiredCount(vs: seq<Version>, number: int, before: Option<int>): Option<int> {
    if vs == [] then before
    else if vs[0].number != number then DesiredCount(vs[1..], number, before)
    else if vs[0].scalingMode == "manual" then vs[0].fixedScale
    else if vs[0].scalingMode == "cpu" then vs[0].minScale
    else before
  }

  function Activated(app: Application, active: Option<int>, vs: seq<Version>): Application {
    app.(activeVersion := active,
         desiredCount := match active case None => None case Some(n) => DesiredCount(vs, n, app.desiredCount))
  }

  function AddApp(a: AppState, id: string, app: Application): AppState {
    a.(applications := a.applications[id := app], order := a.order + [id],
       versionSeqs := a.versionSeqs[id := 0], created := a.created[id := 0])
  }

  function ActivateApp(a: AppState, id: string, active: Option<int>): AppState {
    if id !in a.applications then a
    else a.(applications := a.applications[id := Activated(a.applications[id], active, VersionsOf(a.versions, id))])
  }

  function DropApp(a: AppState, id: string): AppState {
    if id !in a.applications then a
    else a.(applications := a.applications - {id}, order := Kept(a.order, {id}),
            versions := a.versions - {id}, versionSeqs := a.versionSeqs - {id}, created := a.created - {id})
  }

  function AddVersion(a: AppState, id: string, v: Version): AppState {
    if id !in a.applications || id !in a.created then a
    else
      var n := a.created[id] + 1;
      a.(versions := a.versions[id := VersionsOf(a.versions, id) + [v.(number := Wrap32(n))]],
         versionSeqs := a.versionSeqs[id := Wrap32(n)], created := a.created[id := n])
  }

  function RemoveVersion(a: AppState, id: string, number: int): AppState {
    if !HasVersion(VersionsOf(a.versions, id), number) then a
    else a.(versions := a.versions[id := Cut(VersionsOf(a.versions, id), NumberOf, number)])
  }

  lemma NoVersionsIssued(created: nat)
    ensures VersionsIssued([], created)
  {
  }

  lemma VersionsIssuedExtend(vs: seq<Version>, created: nat, v: Version)
    requires VersionsIssued(vs, created) && v.number == Wrap32(created + 1)
    ensures VersionsIssued(vs + [v], created + 1)
  {
    forall x | x in vs + [v] ensures exists k :: 1 <= k <= created + 1 && x.number == Wrap32(k) {
      if x in vs {
        var k :| 1 <= k <= created && x.number == Wrap32(k);
      }
    }
    if created + 1 < TWO_TO_THE_32 {
      forall x | x in vs ensures x.number != v.number {
        var k :| 1 <= k <= created && x.number == Wrap32(k);
        NumbersRepeatAfterWrap(k, created + 1);
      }
    }
  }

  lemma {:induction false} CutIsSublist(vs: seq<Version>, number: int)
    ensures forall v :: v in Cut(vs, NumberOf, number) ==> v in vs
    ensures (forall i, j :: 0 <= i < j < |vs| ==> vs[i].number != vs[j].number) ==>
              forall i, j :: 0 <= i < j < |Cut(vs, NumberOf, number)| ==>
                Cut(vs, NumberOf, number)[i].number != Cut(vs, NumberOf, number)[j].number
  {
    if vs != [] {
      CutIsSublist(vs[1..], number);
      if vs[0].number != number {
        var rest := Cut(vs[1..], NumberOf, number);
        forall j | 0 <= j < |rest| && forall i, k :: 0 <= i < k < |vs| ==> vs[i].number != vs[k].number
          ensures vs[0].number != rest[j].number
        {
          assert rest[j] in vs[1..];
        }
      }
    }
  }

  /** A number leaves the list for good: it is not there after its version is deleted. */
  lemma {:induction false} DeletedVersionIsGone(vs: seq<Version>, number: int)
    requires forall i, j :: 0 <= i < j < |vs| ==> vs[i].number != vs[j].number
    requires HasVersion(vs, number)
    ensures !HasVersion(Cut(vs, NumberOf, number), number)
    ensures |Cut(vs, NumberOf, number)| == |vs| - 1
    ensures forall v :: v in vs && v.number != number ==> v in Cut(vs, NumberOf, number)
  {
    if vs[0].number != number {
      assert HasVersion(vs[1..], number) by {
        var i :| 0 <= i < |vs| && vs[i].number == number;
        assert vs[1..][i - 1].number == number;
      }
      DeletedVersionIsGone(vs[1..], number);
      var rest := Cut(vs[1..], NumberOf, number);
      assert Cut(vs, NumberOf, number) == [vs[0]] + rest;
      forall i | 0 <= i < |[vs[0]] + rest| ensures ([vs[0]] + rest)[i].number != number {
        if i > 0 {
          assert ([vs[0]] + rest)[i] == rest[i - 1];
        }
      }
    } else {
      forall i | 0 <= i < |vs[1..]| ensures vs[1..][i].number != number {
        assert vs[1..][i] == vs[i + 1];
      }
    }
  }

  lemma AddAppKeepsInv(a: AppState, id: string, app: Application)
    requires AppsInv(a) && id !in a.applications
    ensures AppsInv(AddApp(a, id, app))
  {
    OrderedExtend(a.order, a.applications, id, app);
  }

  lemma ActivateAppKeepsInv(a: AppState, id: string, active: Option<int>)
    requires AppsInv(a)
    ensures AppsInv(ActivateApp(a, id, active))
  {
    assert ActivateApp(a, id, active).applications.Keys == a.applications.Keys;
  }

  lemma DropAppKeepsInv(a: AppState, id: string)
    requires AppsInv(a)
    ensures AppsInv(DropApp(a, id))
  {
    OrderedDrop(a.order, a.applications, {id});
  }

  lemma AddVersionCounts(a: AppState, id: string, v: Version)
    requires CountersAgree(a) && id in a.applications
    ensures CountersAgree(AddVersion(a, id, v))
  {
    hide Wrap32, VersionsOf;
    assert AddVersion(a, id, v).versionSeqs.Keys == a.versionSeqs.Keys;
    assert AddVersion(a, id, v).created.Keys == a.created.Keys;
  }

  lemma AddVersionLists(a: AppState, id: string, v: Version)
    requires ListsAgree(a) && id in a.applications && id in a.created
    ensures ListsAgree(AddVersion(a, id, v))
  {
    hide Wrap32, VersionsIssued;
    NoVersionsIssued(a.created[id]);
    VersionsIssuedExtend(VersionsOf(a.versions, id), a.created[id], v.(number := Wrap32(a.created[id] + 1)));
  }

  lemma AddVersionKeepsInv(a: AppState, id: string, v: Version)
    requires AppsInv(a)
    ensures AppsInv(AddVersion(a, id, v))
  {
    hide Ordered, ListsAgree;
    if id in a.applications {
      AddVersionCounts(a, id, v);
      AddVersionLists(a, id, v);
    }
  }

  lemma RemoveVersionKeepsInv(a: AppState, id: string, number: int)
    requires AppsInv(a)
    ensures AppsInv(RemoveVersion(a, id, number))
  {
    if HasVersion(VersionsOf(a.versions, id), number) {
      CutIsSublist(VersionsOf(a.versions, id), number);
    }
  }

  // ---------------------------------------------------------------- certificates

  datatype Certificate = Certificate(
    clusterID: string, name: string, commonName: string, subjects: Option<seq<string>>, notBefore: int, notAfter: int,
    certificatePem: string, privateKeyPem: string, intermediatePem: Option<string>)

  const SECONDS_IN_A_YEAR := 365 * 24 * 3600

  datatype CertState = CertState(certificates: map<string, Certificate>, order: seq<string>)

  /** What the certificate does not say is filled in when it is created. */
  function Issued(cert: Certificate, now: int): Certificate {
    var commonName := if cert.commonName == "" then "mock.example.com" else cert.commonName;
    cert.(commonName := commonName,
          subjects := if cert.subjects.None? then Some([commonName]) else cert.subjects,
          notBefore := if cert.notBefore == 0 then now else cert.notBefore,
          notAfter := if cert.notAfter == 0 then now + SECONDS_IN_A_YEAR else cert.notAfter)
  }

  predicate OwnsCertificate(c: CertState, clusterID: string, id: string) {
    id in c.certificates && c.certificates[id].clusterID == clusterID
  }

  ghost predicate CertsInv(c: CertState) {
    && Ordered(c.order, c.certificates)
    && forall id :: id in c.certificates ==> c.certificates[id].commonName != "" && c.certificates[id].subjects.Some?
  }

  function AddCertificate(c: CertState, id: string, cert: Certificate, now: int): CertState {
    CertState(c.certificates[id := Issued(cert, now)], c.order + [id])
  }

  /** Only the name and the keys are taken over. */
  function ChangeCertificate(c: CertState, clusterID: string, id: string, u: Certificate): CertState {
    if !OwnsCertificate(c, clusterID, id) then c
    else c.(certificates := c.certificates[id := c.certificates[id].(
              name := u.name, certificatePem := u.certificatePem, privateKeyPem := u.privateKeyPem,
              intermediatePem := u.intermediatePem)])
  }

  function DropCertificate(c: CertState, clusterID: string, id: string): CertState {
    if !OwnsCertificate(c, clusterID, id) then c else CertState(c.certificates - {id}, Kept(c.order, {id}))
  }

  // ---------------------------------------------------------------- scaling groups and load balancers

  datatype PoolState = PoolState(
    groups: map<string, ScalingGroup>, groupOrder: seq<string>,
    lbs: map<string, LoadBalancer>, lbOrder: seq<string>, lbNodes: map<string, seq<string>>,
    workers: map<string, WorkerNode>, workerOrder: seq<string>)

  ghost function WorkersOf(workers: map<string, WorkerNode>, groupID: string): set<string> {
    set w | w in workers && workers[w].groupID == groupID
  }

  ghost function BalancersOf(lbs: map<string, LoadBalancer>, groupID: string): set<string> {
    set lb | lb in lbs && lbs[lb].groupID == groupID
  }

  ghost predicate WorkersHaveGroups(groups: map<string, ScalingGroup>, workers: map<string, WorkerNode>) {
    forall w :: w in workers ==> workers[w].groupID in groups
  }

  ghost predicate BalancersHaveGroups(groups: map<string, ScalingGroup>, lbs: map<string, LoadBalancer>) {
    forall lb :: lb in lbs ==> lbs[lb].groupID in groups
  }

  /** The stored count is the number of live nodes (a negative minimum creates none). */
  ghost predicate CountsAgree(groups: map<string, ScalingGroup>, workers: map<string, WorkerNode>) {
    forall g :: g in groups ==>
      |WorkersOf(workers, g)| == if groups[g].workerNodeCount >= 0 then groups[g].workerNodeCount else 0
  }

  ghost predicate PoolsInv(p: PoolState) {
    && Ordered(p.groupOrder, p.groups)
    && Ordered(p.lbOrder, p.lbs)
    && Ordered(p.workerOrder, p.workers)
    && WorkersHaveGroups(p.groups, p.workers)
    && BalancersHaveGroups(p.groups, p.lbs)
    && p.lbNodes.Keys == p.lbs.Keys
    && CountsAgree(p.groups, p.workers)
  }

  function NewWorkers(g: ScalingGroup, id: string, nodeIDs: seq<string>): map<string, WorkerNode> {
    map n | n in nodeIDs :: WorkerNode(g.clusterID, id, false)
  }

  ghost predicate FreshNodes(p: PoolState, g: ScalingGroup, nodeIDs: seq<string>) {
    && Distinct(nodeIDs) && (forall n :: n in nodeIDs ==> n !in p.workers)
    && |nodeIDs| == if g.minNodes >= 0 then g.minNodes else 0
  }

  function AddGroup(p: PoolState, id: string, g: ScalingGroup, nodeIDs: seq<string>): PoolState {
    p.(groups := p.groups[id := g.(workerNodeCount := g.minNodes)], groupOrder := p.groupOrder + [id],
       workers := p.workers + NewWorkers(g, id, nodeIDs), workerOrder := p.workerOrder + nodeIDs)
  }

  predicate OwnsGroup(p: PoolState, clusterID: string, id: string) {
    id in p.groups && p.groups[id].clusterID == clusterID
  }

  ghost function DropGroup(p: PoolState, clusterID: string, id: string): PoolState {
    if !OwnsGroup(p, clusterID, id) then p
    else
      var ws, bs := WorkersOf(p.workers, id), BalancersOf(p.lbs, id);
      PoolState(p.groups - {id}, Kept(p.groupOrder, {id}),
                p.lbs - bs, Kept(p.lbOrder, bs), p.lbNodes - bs,
                p.workers - ws, Kept(p.workerOrder, ws))
  }

  function AddBalancer(p: PoolState, id: string, lb: LoadBalancer, nodeID: string): PoolState {
    if lb.groupID !in p.groups then p
    else p.(lbs := p.lbs[id := lb], lbOrder := p.lbOrder + [id], lbNodes := p.lbNodes[id := [nodeID]])
  }

  predicate OwnsBalancer(p: PoolState, clusterID: string, groupID: string, id: string) {
    id in p.lbs && p.lbs[id].clusterID == clusterID && p.lbs[id].groupID == groupID
  }

  function DropBalancer(p: PoolState, clusterID: string, groupID: string, id: string): PoolState {
    if !OwnsBalancer(p, clusterID, groupID, id) then p
    else p.(lbs := p.lbs - {id}, lbOrder := Kept(p.lbOrder, {id}), lbNodes := p.lbNodes - {id})
  }

  predicate OwnsWorker(p: PoolState, clusterID: string, groupID: string, id: string) {
    id in p.workers && p.workers[id].clusterID == clusterID && p.workers[id].groupID == groupID
  }

  function Drain(p: PoolState, clusterID: string, groupID: string, id: string, draining: bool): PoolState {
    if !OwnsWorker(p, clusterID, groupID, id) then p
    else p.(workers := p.workers[id := p.workers[id].(draining := draining)])
  }

  /** The keys met by a scan of the first `i` listed that are to go. */
  ghost function Seen(order: seq<string>, i: nat, gone: set<string>): set<string>
    requires i <= |order|
  {
    set id | id in order[..i] && id in gone
  }

  lemma SeenStep(order: seq<string>, i: nat, gone: set<string>)
    requires i < |order|
    ensures Seen(order, i + 1, gone) == if order[i] in gone then Seen(order, i, gone) + {order[i]} else Seen(order, i, gone)
  {
    assert order[..i + 1] == order[..i] + [order[i]];
  }

  lemma MinusStep<V>(m: map<string, V>, a: set<string>, x: string)
    ensures (m - a) - {x} == m - (a + {x})
  {
  }

  lemma SameWorkersOf(workers: map<string, WorkerNode>, workers': map<string, WorkerNode>, g: string)
    requires forall w :: w in workers && workers[w].groupID == g ==> w in workers' && workers'[w].groupID == g
    requires forall w :: w in workers' && workers'[w].groupID == g ==> w in workers && workers[w].groupID == g
    ensures WorkersOf(workers', g) == WorkersOf(workers, g)
  {
  }

  lemma AddGroupCounts(p: PoolState, id: string, g: ScalingGroup, nodeIDs: seq<string>)
    requires WorkersHaveGroups(p.groups, p.workers) && CountsAgree(p.groups, p.workers)
    requires id !in p.groups && FreshNodes(p, g, nodeIDs)
    ensures CountsAgree(AddGroup(p, id, g, nodeIDs).groups, AddGroup(p, id, g, nodeIDs).workers)
  {
    var p' := AddGroup(p, id, g, nodeIDs);
    assert WorkersOf(p'.workers, id) == NewWorkers(g, id, nodeIDs).Keys;
    SetSize(nodeIDs, NewWorkers(g, id, nodeIDs).Keys);
    forall x | x in p.groups ensures WorkersOf(p'.workers, x) == WorkersOf(p.workers, x) {
      SameWorkersOf(p.workers, p'.workers, x);
    }
  }

  lemma AddGroupKeepsInv(p: PoolState, id: string, g: ScalingGroup, nodeIDs: seq<string>)
    requires PoolsInv(p) && id !in p.groups && FreshNodes(p, g, nodeIDs)
    ensures PoolsInv(AddGroup(p, id, g, nodeIDs))
  {
    OrderedExtend(p.groupOrder, p.groups, id, g.(workerNodeCount := g.minNodes));
    OrderedAppend(p.workerOrder, p.workers, nodeIDs, NewWorkers(g, id, nodeIDs));
    AddGroupCounts(p, id, g, nodeIDs);
  }

  lemma DropGroupCounts(p: PoolState, clusterID: string, id: string)
    requires PoolsInv(p) && OwnsGroup(p, clusterID, id)
    ensures CountsAgree(DropGroup(p, clusterID, id).groups, DropGroup(p, clusterID, id).workers)
  {
    var p' := DropGroup(p, clusterID, id);
    assert p'.workers == p.workers - WorkersOf(p.workers, id);
    forall x | x in p'.groups
      ensures |WorkersOf(p'.workers, x)| == if p.groups[x].workerNodeCount >= 0 then p.groups[x].workerNodeCount else 0
    {
      KeepWorkersOf(p.workers, id, x);
    }
  }

  lemma KeepWorkersOf(workers: map<string, WorkerNode>, id: string, x: string)
    requires x != id
    ensures WorkersOf(workers - WorkersOf(workers, id), x) == WorkersOf(workers, x)
  {
  }

  lemma DropGroupKeepsInv(p: PoolState, clusterID: string, id: string)
    requires PoolsInv(p)
    ensures PoolsInv(DropGroup(p, clusterID, id))
  {
    if OwnsGroup(p, clusterID, id) {
      OrderedDrop(p.groupOrder, p.groups, {id});
      OrderedDrop(p.workerOrder, p.workers, WorkersOf(p.workers, id));
      OrderedDrop(p.lbOrder, p.lbs, BalancersOf(p.lbs, id));
      DropGroupCounts(p, clusterID, id);
    }
  }

  lemma AddBalancerKeepsInv(p: PoolState, id: string, lb: LoadBalancer, nodeID: string)
    requires PoolsInv(p) && id !in p.lbs
    ensures PoolsInv(AddBalancer(p, id, lb, nodeID))
  {
    OrderedExtend(p.lbOrder, p.lbs, id, lb);
  }

  lemma DropBalancerKeepsInv(p: PoolState, clusterID: string, groupID: string, id: string)
    requires PoolsInv(p)
    ensures PoolsInv(DropBalancer(p, clusterID, groupID, id))
  {
    OrderedDrop(p.lbOrder, p.lbs, {id});
  }

  lemma DrainCounts(p: PoolState, clusterID: string, groupID: string, id: string, draining: bool)
    requires CountsAgree(p.groups, p.workers)
    ensures CountsAgree(p.groups, Drain(p, clusterID, groupID, id, draining).workers)
  {
    forall x | x in p.groups ensures WorkersOf(Drain(p, clusterID, groupID, id, draining).workers, x) == WorkersOf(p.workers, x) {
      SameWorkersOf(p.workers, Drain(p, clusterID, groupID, id, draining).workers, x);
    }
  }

  lemma DrainKeepsInv(p: PoolState, clusterID: string, groupID: string, id: string, draining: bool)
    requires PoolsInv(p)
    ensures PoolsInv(Drain(p, clusterID, groupID, id, draining))
  {
    DrainCounts(p, clusterID, groupID, id, draining);
    assert Drain(p, clusterID, groupID, id, draining).workers.Keys == p.workers.Keys;
  }

  // ---------------------------------------------------------------- every run

  datatype State = State(
    clusters: map<string, string>, clusterOrder: seq<string>, certs: CertState, apps: AppState, pools: PoolState)

  const EMPTY := State(
    map[], [], CertState(map[], []), AppState(map[], [], map[], map[], map[]),
    PoolState(map[], [], map[], [], map[], map[], []))

  ghost predicate Inv(s: State) {
    Ordered(s.clusterOrder, s.clusters) && CertsInv(s.certs) && AppsInv(s.apps) && PoolsInv(s.pools)
  }

  /** The calls that change the store; identifiers they need are fresh and given. */
  datatype Op =
    | CreateCluster(id: string, name: string)
    | DeleteCluster(id: string)
    | CreateCertificate(id: string, cert: Certificate, now: int)
    | UpdateCertificate(clusterID: string, id: string, updated: Certificate)
    | DeleteCertificate(clusterID: string, id: string)
    | CreateApplication(id: string, app: Application)
    | UpdateApplication(id: string, active: Option<int>)
    | DeleteApplication(id: string)
    | CreateVersion(id: string, version: Version)
    | DeleteVersion(id: string, number: int)
    | CreateGroup(id: string, group: ScalingGroup, nodeIDs: seq<string>)
    | DeleteGroup(clusterID: string, id: string)
    | CreateBalancer(id: string, lb: LoadBalancer, nodeID: string)
    | DeleteBalancer(clusterID: string, groupID: string, id: string)
    | SetDraining(clusterID: string, groupID: string, id: string, draining: bool)

  ghost predicate Fresh(s: State, op: Op) {
    match op
    case CreateCluster(id, _) => id !in s.clusters
    case CreateCertificate(id, _, _) => id !in s.certs.certificates
    case CreateApplication(id, _) => id !in s.apps.applications
    case CreateGroup(id, g, nodeIDs) => id !in s.pools.groups && FreshNodes(s.pools, g, nodeIDs)
    case CreateBalancer(id, _, _) => id !in s.pools.lbs
    case _ => true
  }

  ghost function Step(s: State, op: Op): State {
    match op
    case CreateCluster(id, name) => s.(clusters := s.clusters[id := name], clusterOrder := s.clusterOrder + [id])
    case DeleteCluster(id) => s.(clusters := s.clusters - {id}, clusterOrder := Kept(s.clusterOrder, {id}))
    case CreateCertificate(id, cert, now) =>
      if cert.clusterID in s.clusters then s.(certs := AddCertificate(s.certs, id, cert, now)) else s
    case UpdateCertificate(clusterID, id, updated) => s.(certs := ChangeCertificate(s.certs, clusterID, id, updated))
    case DeleteCertificate(clusterID, id) => s.(certs := DropCertificate(s.certs, clusterID, id))
    case CreateApplication(id, app) => s.(apps := AddApp(s.apps, id, app))
    case UpdateApplication(id, active) => s.(apps := ActivateApp(s.apps, id, active))
    case DeleteApplication(id) => s.(apps := DropApp(s.apps, id))
    case CreateVersion(id, v) => s.(apps := AddVersion(s.apps, id, v))
    case DeleteVersion(id, number) => s.(apps := RemoveVersion(s.apps, id, number))
    case CreateGroup(id, g, nodeIDs) =>
      if g.clusterID in s.clusters then s.(pools := AddGroup(s.pools, id, g, nodeIDs)) else s
    case DeleteGroup(clusterID, id) => s.(pools := DropGroup(s.pools, clusterID, id))
    case CreateBalancer(id, lb, nodeID) => s.(pools := AddBalancer(s.pools, id, lb, nodeID))
    case DeleteBalancer(clusterID, groupID, id) => s.(pools := DropBalancer(s.pools, clusterID, groupID, id))
    case SetDraining(clusterID, groupID, id, draining) => s.(pools := Drain(s.pools, clusterID, groupID, id, draining))
  }

  lemma StepKeepsInv(s: State, op: Op)
    requires Inv(s) && Fresh(s, op)
    ensures Inv(Step(s, op))
  {
    match op
    case CreateCluster(id, name) => OrderedExtend(s.clusterOrder, s.clusters, id, name);
    case DeleteCluster(id) => OrderedDrop(s.clusterOrder, s.clusters, {id});
    case CreateCertificate(id, cert, now) => OrderedExtend(s.certs.order, s.certs.certificates, id, Issued(cert, now));
    case UpdateCertificate(_, _, _) =>
    case DeleteCertificate(_, id) => OrderedDrop(s.certs.order, s.certs.certificates, {id});
    case CreateApplication(id, app) => AddAppKeepsInv(s.apps, id, app);
    case UpdateApplication(id, active) => ActivateAppKeepsInv(s.apps, id, active);
    case DeleteApplication(id) => DropAppKeepsInv(s.apps, id);
    case CreateVersion(id, v) => AddVersionKeepsInv(s.apps, id, v);
    case DeleteVersion(id, number) => RemoveVersionKeepsInv(s.apps, id, number);
    case CreateGroup(id, g, nodeIDs) => AddGroupKeepsInv(s.pools, id, g, nodeIDs);
    case DeleteGroup(clusterID, id) => DropGroupKeepsInv(s.pools, clusterID, id);
    case CreateBalancer(id, lb, nodeID) => AddBalancerKeepsInv(s.pools, id, lb, nodeID);
    case DeleteBalancer(clusterID, groupID, id) => DropBalancerKeepsInv(s.pools, clusterID, groupID, id);
    case SetDraining(clusterID, groupID, id, draining) => DrainKeepsInv(s.pools, clusterID, groupID, id, draining);
  }

  ghost predicate IsRun(s: State, ops: seq<Op>)
    decreases |ops|
  {
    ops == [] || (Fresh(s, ops[0]) && IsRun(Step(s, ops[0]), ops[1..]))
  }

  ghost function Run(s: State, ops: seq<Op>): State
    decreases |ops|
  {
    if ops == [] then s else Run(Step(s, ops[0]), ops[1..])
  }

  lemma EmptyHoldsInv()
    ensures Inv(EMPTY)
  {
  }

  lemma {:induction false} RunKeepsInv(s: State, ops: seq<Op>)
    requires Inv(s) && IsRun(s, ops)
    ensures Inv(Run(s, ops))
    decreases |ops|
  {
    if ops != [] {
      StepKeepsInv(s, ops[0]);
      RunKeepsInv(Step(s, ops[0]), ops[1..]);
    }
  }

  /**
   After every run: each of the six order slices lists exactly its map's keys,
   once; the nodes of load balancers are kept for exactly the live ones; every
   worker node and load balancer belongs to a live group; a group counts its
   live nodes; every certificate has a common name and subjects; and no
   application lists a version number twice before its counter wraps.
   */
  lemma EveryRunIsConsistent(ops: seq<Op>)
    requires IsRun(EMPTY, ops)
    ensures var s := Run(EMPTY, ops);
            && Ordered(s.clusterOrder, s.clusters)
            && Ordered(s.certs.order, s.certs.certificates)
            && Ordered(s.apps.order, s.apps.applications)
            && Ordered(s.pools.groupOrder, s.pools.groups)
            && Ordered(s.pools.lbOrder, s.pools.lbs)
            && Ordered(s.pools.workerOrder, s.pools.workers)
            && s.pools.lbNodes.Keys == s.pools.lbs.Keys
            && (forall w :: w in s.pools.workers ==> s.pools.workers[w].groupID in s.pools.groups)
            && (forall b :: b in s.pools.lbs ==> s.pools.lbs[b].groupID in s.pools.groups)
            && (forall g :: g in s.pools.groups && s.pools.groups[g].workerNodeCount >= 0 ==>
                  |WorkersOf(s.pools.workers, g)| == s.pools.groups[g].workerNodeCount)
            && (forall c :: c in s.certs.certificates ==>
                  s.certs.certificates[c].commonName != "" && s.certs.certificates[c].subjects.Some?)
            && (forall id :: id in s.apps.versions && id in s.apps.created && s.apps.created[id] < TWO_TO_THE_32 ==>
                  forall i, j :: 0 <= i < j < |s.apps.versions[id]| ==>
                    s.apps.versions[id][i].number != s.apps.versions[id][j].number)
  {
    EmptyHoldsInv();
    RunKeepsInv(EMPTY, ops);
  }

  function LastNumber(a: AppState, id: string): Option<int> {
    var vs := VersionsOf(a.versions, id);
    if vs == [] then None else Some(Last(vs).number)
  }

  lemma LastNumberIsCounter(a: AppState, id: string, v: Version)
    requires id in a.applications && id in a.created
    ensures LastNumber(AddVersion(a, id, v), id) == Some(Wrap32(a.created[id] + 1))
    ensures id in AddVersion(a, id, v).created && AddVersion(a, id, v).created[id] == a.created[id] + 1
  {
  }

  lemma StepKeepsCounter(s: State, op: Op, id: string)
    requires Inv(s) && Fresh(s, op) && id in s.apps.applications && op != DeleteApplication(id)
    ensures id in Step(s, op).apps.applications && id in Step(s, op).apps.created
    ensures Step(s, op).apps.created[id] >= s.apps.created[id]
  {
    hide CertsInv, PoolsInv, ListsAgree, Ordered, VersionsIssued, Kept, Cut, Wrap32, Activated;
    hide AddGroup, DropGroup, AddBalancer, DropBalancer, Drain, FreshNodes;
    hide AddCertificate, ChangeCertificate, DropCertificate;
  }

  lemma {:induction false} CounterOnlyGrows(s: State, ops: seq<Op>, id: string)
    requires Inv(s) && IsRun(s, ops) && id in s.apps.applications
    requires DeleteApplication(id) !in ops
    ensures Inv(Run(s, ops))
    ensures id in Run(s, ops).apps.applications && Run(s, ops).apps.created[id] >= s.apps.created[id]
    decreases |ops|
  {
    if ops != [] {
      StepKeepsInv(s, ops[0]);
      StepKeepsCounter(s, ops[0], id);
      assert forall op :: op in ops[1..] ==> op in ops;
      hide Step, CertsInv, PoolsInv, ListsAgree, Ordered;
      CounterOnlyGrows(Step(s, ops[0]), ops[1..], id);
    }
  }

  /**
   Whatever happens after a version of an application is created, deleting it
   included, a later version gets its number again exactly when a multiple of
   2^32 versions have been created by then, while the application lives.
   */
  lemma NumberIssuedAgainExactly(before: seq<Op>, first: Version, ops: seq<Op>, later: Version, id: string)
    requires IsRun(EMPTY, before) && id in Run(EMPTY, before).apps.applications
    requires IsRun(Step(Run(EMPTY, before), CreateVersion(id, first)), ops) && DeleteApplication(id) !in ops
    ensures var s1 := Step(Run(EMPTY, before), CreateVersion(id, first));
            var s2 := Run(s1, ops);
            && id in s1.apps.created && id in s2.apps.applications && id in s2.apps.created
            && s1.apps.created[id] <= s2.apps.created[id]
            && (LastNumber(Step(s2, CreateVersion(id, later)).apps, id) == LastNumber(s1.apps, id) <==>
                  (s2.apps.created[id] + 1 - s1.apps.created[id]) % TWO_TO_THE_32 == 0)
  {
    hide Run, IsRun, AddVersion, LastNumber, Wrap32;
    var s := Run(EMPTY, before);
    var s1 := Step(s, CreateVersion(id, first));
    var s2 := Run(s1, ops);
    CounterBetween(before, first, ops, id);
    LastNumberIsCounter(s.apps, id, first);
    LastNumberIsCounter(s2.apps, id, later);
    NumbersRepeatAfterWrap(s.apps.created[id] + 1, s2.apps.created[id] + 1);
  }

  /** So within the first 2^32 versions of an application no number is issued twice. */
  lemma NumberNeverIssuedAgain(before: seq<Op>, first: Version, ops: seq<Op>, later: Version, id: string)
    requires IsRun(EMPTY, before) && id in Run(EMPTY, before).apps.applications
    requires IsRun(Step(Run(EMPTY, before), CreateVersion(id, first)), ops) && DeleteApplication(id) !in ops
    ensures var s1 := Step(Run(EMPTY, before), CreateVersion(id, first));
            var s2 := Run(s1, ops);
            && id in s2.apps.applications && id in s2.apps.created
            && (s2.apps.created[id] + 1 < TWO_TO_THE_32 ==>
                  LastNumber(Step(s2, CreateVersion(id, later)).apps, id) != LastNumber(s1.apps, id))
  {
    hide *;
    NumberIssuedAgainExactly(before, first, ops, later, id);
    var s1 := Step(Run(EMPTY, before), CreateVersion(id, first));
    var s2 := Run(s1, ops);
    if s2.apps.created[id] + 1 < TWO_TO_THE_32 {
      SmallRemainder(s2.apps.created[id] + 1 - s1.apps.created[id]);
    }
  }

  lemma SmallRemainder(n: int)
    requires 0 < n < TWO_TO_THE_32
    ensures n % TWO_TO_THE_32 != 0
  {
  }

  function Creations(id: string, v: Version, n: nat): (ops: seq<Op>)
    ensures |ops| == n && forall op :: op in ops ==> op == CreateVersion(id, v)
  {
    seq(n, i => CreateVersion(id, v))
  }

  lemma CreationCounts(s: State, id: string, v: Version)
    requires id in s.apps.applications && id in s.apps.created
    ensures var s' := Step(s, CreateVersion(id, v));
            id in s'.apps.applications && id in s'.apps.created && s'.apps.created[id] == s.apps.created[id] + 1
  {
  }

  lemma {:induction false} CreationsCount(s: State, id: string, v: Version, ops: seq<Op>)
    requires id in s.apps.applications && id in s.apps.created && forall op :: op in ops ==> op == CreateVersion(id, v)
    ensures IsRun(s, ops)
    ensures var s' := Run(s, ops);
            id in s'.apps.applications && id in s'.apps.created && s'.apps.created[id] == s.apps.created[id] + |ops|
    decreases |ops|
  {
    if ops != [] {
      hide Step;
      assert ops[0] in ops && forall op :: op in ops[1..] ==> op in ops;
      CreationCounts(s, id, v);
      CreationsCount(Step(s, ops[0]), id, v, ops[1..]);
    }
  }

  /**
   An input that shows it: the version created after an application's first and
   2^32 - 1 more has the number of the first.
   */
  lemma NumberComesBack(before: seq<Op>, v: Version, id: string)
    requires IsRun(EMPTY, before) && id in Run(EMPTY, before).apps.applications
    ensures var s1 := Step(Run(EMPTY, before), CreateVersion(id, v));
            var ops := Creations(id, v, TWO_TO_THE_32 - 1);
            && IsRun(s1, ops)
            && LastNumber(Step(Run(s1, ops), CreateVersion(id, v)).apps, id) == LastNumber(s1.apps, id)
  {
    var last := TWO_TO_THE_32 - 1;
    assert last >= 0 && (last + 1) % TWO_TO_THE_32 == 0;
    hide *;
    var s1 := Step(Run(EMPTY, before), CreateVersion(id, v));
    var ops := Creations(id, v, last);
    LiveIsCounted(before, id);
    CreationCounts(Run(EMPTY, before), id, v);
    CreationsCount(s1, id, v, ops);
    assert DeleteApplication(id) !in ops;
    NumberIssuedAgainExactly(before, v, ops, v, id);
  }

  lemma LiveIsCounted(before: seq<Op>, id: string)
    requires IsRun(EMPTY, before) && id in Run(EMPTY, before).apps.applications
    ensures id in Run(EMPTY, before).apps.created
  {
    EmptyHoldsInv();
    RunKeepsInv(EMPTY, before);
  }

  lemma NumberComesBackExample(app: Application, v: Version)
    ensures var before := [CreateApplication("a", app)];
            var s1 := Step(Run(EMPTY, before), CreateVersion("a", v));
            var ops := Creations("a", v, TWO_TO_THE_32 - 1);
            && IsRun(EMPTY, before) && "a" in Run(EMPTY, before).apps.applications
            && IsRun(s1, ops)
            && LastNumber(Step(Run(s1, ops), CreateVersion("a", v)).apps, "a") == LastNumber(s1.apps, "a")
  {
    var before := [CreateApplication("a", app)];
    assert before[1..] == [] && Fresh(EMPTY, before[0]);
    assert Run(EMPTY, before) == Step(EMPTY, before[0]);
    hide *;
    NumberComesBack(before, v, "a");
  }

  lemma CounterBetween(before: seq<Op>, first: Version, ops: seq<Op>, id: string)
    requires IsRun(EMPTY, before) && id in Run(EMPTY, before).apps.applications
    requires IsRun(Step(Run(EMPTY, before), CreateVersion(id, first)), ops) && DeleteApplication(id) !in ops
    ensures var s := Run(EMPTY, before);
            var s2 := Run(Step(s, CreateVersion(id, first)), ops);
            && id in s.apps.created && id in s2.apps.applications && id in s2.apps.created
            && s.apps.created[id] + 1 <= s2.apps.created[id]
  {
    EmptyHoldsInv();
    RunKeepsInv(EMPTY, before);
    var s := Run(EMPTY, before);
    StepKeepsInv(s, CreateVersion(id, first));
    CounterOnlyGrows(Step(s, CreateVersion(id, first)), ops, id);
  }

  // ---------------------------------------------------------------- the store

  class Store {
    var clusters: map<string, string>
    var clusterOrder: seq<string>
    var certificates: map<string, Certificate>
    var certOrder: seq<string>
    var applications: map<string, Application>
    var appOrder: seq<string>
    var versions: map<string, seq<Version>>
    var versionSeqs: map<string, int>
    ghost var created: map<string, nat>
    var groups: map<string, ScalingGroup>
    var groupOrder: seq<string>
    var lbs: map<string, LoadBalancer>
    var lbOrder: seq<string>
    var lbNodes: map<string, seq<string>>
    var workers: map<string, WorkerNode>
    var workerOrder: seq<string>

    ghost function Certs(): CertState
      reads this`certificates, this`certOrder
    {
      CertState(certificates, certOrder)
    }

    ghost function Apps(): AppState
      reads this`applications, this`appOrder, this`versions, this`versionSeqs, this`created
    {
      AppState(applications, appOrder, versions, versionSeqs, created)
    }

    ghost function Pools(): PoolState
      reads this`groups, this`groupOrder, this`lbs, this`lbOrder, this`lbNodes, this`workers, this`workerOrder
    {
      PoolState(groups, groupOrder, lbs, lbOrder, lbNodes, workers, workerOrder)
    }

    ghost function Contents(): State
      reads this
    {
      State(clusters, clusterOrder, Certs(), Apps(), Pools())
    }

    ghost predicate Valid()
      reads this
    {
      Inv(Contents())
    }

    constructor ()
      ensures Valid() && Contents() == EMPTY
    {
      clusters, clusterOrder := map[], [];
      certificates, certOrder := map[], [];
      applications, appOrder := map[], [];
      versions, versionSeqs, created := map[], map[], map[];
      groups, groupOrder := map[], [];
      lbs, lbOrder, lbNodes := map[], [], map[];
      workers, workerOrder := map[], [];
      new;
      EmptyHoldsInv();
    }

    method CreateCluster(id: string, name: string)
      requires Ordered(clusterOrder, clusters) && id !in clusters
      modifies this`clusters, this`clusterOrder
      ensures Ordered(clusterOrder, clusters)
      ensures clusters == old(clusters)[id := name] && clusterOrder == old(clusterOrder) + [id]
    {
      OrderedExtend(clusterOrder, clusters, id, name);
      clusters := clusters[id := name];
      clusterOrder := clusterOrder + [id];
    }

    /** Deleting a cluster does not cascade. */
    method DeleteCluster(id: string) returns (ok: bool)
      requires Ordered(clusterOrder, clusters)
      modifies this`clusters, this`clusterOrder
      ensures Ordered(clusterOrder, clusters)
      ensures clusters == old(clusters) - {id} && clusterOrder == Kept(old(clusterOrder), {id})
      ensures ok == (id in old(clusters))
    {
      OrderedDrop(clusterOrder, clusters, {id});
      KeptIsWithout(clusterOrder, id);
      if id !in clusters {
        return false;
      }
      clusters := clusters - {id};
      clusterOrder := RemoveFromOrder(clusterOrder, id);
      ok := true;
    }

    method CreateCertificate(id: string, cert: Certificate, now: int) returns (ok: bool)
      requires CertsInv(Certs()) && id !in certificates
      modifies this`certificates, this`certOrder
      ensures CertsInv(Certs()) && ok == (cert.clusterID in clusters)
      ensures Certs() == if ok then AddCertificate(old(Certs()), id, cert, now) else old(Certs())
    {
      OrderedExtend(certOrder, certificates, id, Issued(cert, now));
      hide Ordered;
      if cert.clusterID !in clusters {
        return false;
      }
      var c := cert;
      if c.commonName == "" {
        c := c.(commonName := "mock.example.com");
      }
      if c.subjects.None? {
        c := c.(subjects := Some([c.commonName]));
      }
      if c.notBefore == 0 {
        c := c.(notBefore := now);
      }
      if c.notAfter == 0 {
        c := c.(notAfter := now + 365 * 24 * 3600);
      }
      certificates := certificates[id := c];
      certOrder := certOrder + [id];
      ok := true;
    }

    method UpdateCertificate(clusterID: string, id: string, u: Certificate) returns (ok: bool)
      requires CertsInv(Certs())
      modifies this`certificates
      ensures CertsInv(Certs()) && ok == OwnsCertificate(old(Certs()), clusterID, id)
      ensures Certs() == ChangeCertificate(old(Certs()), clusterID, id, u)
    {
      if id !in certificates || certificates[id].clusterID != clusterID {
        return false;
      }
      certificates := certificates[id := certificates[id].(
        name := u.name, certificatePem := u.certificatePem, privateKeyPem := u.privateKeyPem,
        intermediatePem := u.intermediatePem)];
      ok := true;
    }

    method DeleteCertificate(clusterID: string, id: string) returns (ok: bool)
      requires CertsInv(Certs())
      modifies this`certificates, this`certOrder
      ensures CertsInv(Certs()) && ok == OwnsCertificate(old(Certs()), clusterID, id)
      ensures Certs() == DropCertificate(old(Certs()), clusterID, id)
    {
      OrderedDrop(certOrder, certificates, {id});
      if id !in certificates || certificates[id].clusterID != clusterID {
        return false;
      }
      certificates := certificates - {id};
      certOrder := RemoveFromOrder(certOrder, id);
      ok := true;
    }

    method CreateApplication(id: string, app: Application)
      requires AppsInv(Apps()) && id !in applications
      modifies this`applications, this`appOrder, this`versions, this`versionSeqs, this`created
      ensures AppsInv(Apps())
      ensures Apps() == AddApp(old(Apps()), id, app)
    {
      AddAppKeepsInv(Apps(), id, app);
      applications := applications[id := app];
      appOrder := appOrder + [id];
      versionSeqs := versionSeqs[id := 0];
      created := created[id := 0];
    }

    method UpdateApplication(id: string, active: Option<int>) returns (ok: bool)
      requires AppsInv(Apps())
      modifies this`applications, this`appOrder, this`versions, this`versionSeqs, this`created
      ensures AppsInv(Apps())
      ensures Apps() == ActivateApp(old(Apps()), id, active)
      ensures ok == (id in old(applications))
    {
      ActivateAppKeepsInv(Apps(), id, active);
      if id !in applications {
        return false;
      }
      var app := applications[id].(activeVersion := active);
      if active.None? {
        app := app.(desiredCount := None);
      } else {
        var vs := if id in versions then versions[id] else [];
        var i := 0;
        ghost var target := DesiredCount(vs, active.value, app.desiredCount);
        while i < |vs|
          invariant 0 <= i <= |vs|
          invariant app == applications[id].(activeVersion := active)
          invariant DesiredCount(vs[i..], active.value, app.desiredCount) == target
        {
          assert vs[i..][0] == vs[i] && vs[i..][1..] == vs[i + 1..];
          if vs[i].number == active.value {
            if vs[i].scalingMode == "manual" {
              app := app.(desiredCount := vs[i].fixedScale);
            } else if vs[i].scalingMode == "cpu" {
              app := app.(desiredCount := vs[i].minScale);
            }
            break;
          }
          i := i + 1;
        }
        assert app.desiredCount == target;
      }
      applications := applications[id := app];
      ok := true;
    }

    method DeleteApplication(id: string) returns (ok: bool)
      requires AppsInv(Apps())
      modifies this`applications, this`appOrder, this`versions, this`versionSeqs, this`created
      ensures AppsInv(Apps())
      ensures Apps() == DropApp(old(Apps()), id)
      ensures ok == (id in old(applications))
    {
      DropAppKeepsInv(Apps(), id);
      assert Distinct(appOrder);
      hide AppsInv, Distinct, Kept;
      if id !in applications {
        return false;
      }
      applications := applications - {id};
      versions := versions - {id};
      versionSeqs := versionSeqs - {id};
      created := created - {id};
      appOrder := RemoveFromOrder(appOrder, id);
      ok := true;
    }

    method CreateVersion(id: string, v: Version) returns (ok: bool, number: int)
      requires AppsInv(Apps())
      modifies this`applications, this`appOrder, this`versions, this`versionSeqs, this`created
      ensures AppsInv(Apps())
      ensures Apps() == AddVersion(old(Apps()), id, v)
      ensures ok == (id in old(applications))
      ensures ok ==> id in old(created) && number == Wrap32(old(created[id]) + 1)
    {
      ghost var before := Apps();
      ok, number := id in applications, 0;
      if ok {
        number := AppendVersion(id, v);
      }
      AddVersionKeepsInv(before, id, v);
    }

    method AppendVersion(id: string, v: Version) returns (number: int)
      requires id in applications && id in versionSeqs && id in created && versionSeqs[id] == Wrap32(created[id])
      modifies this`versions, this`versionSeqs, this`created
      ensures Apps() == AddVersion(old(Apps()), id, v)
      ensures number == Wrap32(old(created[id]) + 1)
    {
      IncrementWraps(created[id]);
      number := Increment32(versionSeqs[id]);
      versionSeqs := versionSeqs[id := number];
      var vs := if id in versions then versions[id] else [];
      versions := versions[id := vs + [v.(number := number)]];
      created := created[id := created[id] + 1];
    }

    method DeleteVersion(id: string, number: int) returns (ok: bool)
      requires AppsInv(Apps())
      modifies this`applications, this`appOrder, this`versions, this`versionSeqs, this`created
      ensures AppsInv(Apps())
      ensures Apps() == RemoveVersion(old(Apps()), id, number)
      ensures ok == (HasVersion(VersionsOf(old(versions), id), number))
    {
      ghost var before := Apps();
      var vs := if id in versions then versions[id] else [];
      var rest;
      rest, ok := CutVersion(vs, number);
      if ok {
        versions := versions[id := rest];
      }
      assert Apps() == RemoveVersion(before, id, number);
      RemoveVersionKeepsInv(before, id, number);
    }

    static method CutVersion(vs: seq<Version>, number: int) returns (rest: seq<Version>, found: bool)
      ensures found == HasVersion(vs, number)
      ensures rest == Cut(vs, NumberOf, number)
    {
      CutIs(vs, NumberOf, number);
      hide Cut;
      var i := 0;
      while i < |vs|
        invariant 0 <= i <= |vs|
        invariant forall k :: 0 <= k < i ==> vs[k].number != number
      {
        if vs[i].number == number {
          assert FirstWith(vs, NumberOf, number) == i;
          return vs[..i] + vs[i + 1..], true;
        }
        i := i + 1;
      }
      assert FirstWith(vs, NumberOf, number) == |vs|;
      rest, found := vs, false;
    }

    /** Creates the group and as many worker nodes as its minimum. */
    method CreateAutoScalingGroup(id: string, asg: ScalingGroup, nodeIDs: seq<string>) returns (ok: bool)
      requires PoolsInv(Pools()) && id !in groups && FreshNodes(Pools(), asg, nodeIDs)
      modifies this`groups, this`groupOrder, this`lbs, this`lbOrder, this`lbNodes, this`workers, this`workerOrder
      ensures PoolsInv(Pools())
      ensures Pools() == (if ok then AddGroup(old(Pools()), id, asg, nodeIDs) else old(Pools()))
      ensures ok == (asg.clusterID in clusters)
    {
      if asg.clusterID !in clusters {
        return false;
      }
      ghost var before := Pools();
      groups := groups[id := asg.(workerNodeCount := asg.minNodes)];
      groupOrder := groupOrder + [id];
      AddWorkers(id, asg, nodeIDs);
      ok := true;
      assert Pools() == AddGroup(before, id, asg, nodeIDs);
      AddGroupKeepsInv(before, id, asg, nodeIDs);
    }

    method AddWorkers(id: string, asg: ScalingGroup, nodeIDs: seq<string>)
      modifies this`workers, this`workerOrder
      ensures workers == old(workers) + NewWorkers(asg, id, nodeIDs)
      ensures workerOrder == old(workerOrder) + nodeIDs
    {
      var i := 0;
      while i < |nodeIDs|
        invariant 0 <= i <= |nodeIDs|
        invariant workers == old(workers) + NewWorkers(asg, id, nodeIDs[..i])
        invariant workerOrder == old(workerOrder) + nodeIDs[..i]
      {
        assert nodeIDs[..i + 1] == nodeIDs[..i] + [nodeIDs[i]];
        workers := workers[nodeIDs[i] := WorkerNode(asg.clusterID, id, false)];
        workerOrder := workerOrder + [nodeIDs[i]];
        i := i + 1;
      }
      assert nodeIDs[..|nodeIDs|] == nodeIDs;
    }

    /** The group goes together with its worker nodes and load balancers. */
    method DeleteAutoScalingGroup(clusterID: string, id: string) returns (ok: bool)
      requires PoolsInv(Pools())
      modifies this`groups, this`groupOrder, this`lbs, this`lbOrder, this`lbNodes, this`workers, this`workerOrder
      ensures PoolsInv(Pools())
      ensures Pools() == DropGroup(old(Pools()), clusterID, id)
      ensures ok == (OwnsGroup(old(Pools()), clusterID, id))
    {
      ghost var before := Pools();
      ok := id in groups && groups[id].clusterID == clusterID;
      if ok {
        RemoveGroup(id);
      }
      DropGroupKeepsInv(before, clusterID, id);
    }

    method RemoveGroup(id: string)
      requires Ordered(workerOrder, workers) && Ordered(lbOrder, lbs) && Distinct(groupOrder) && id in groups
      modifies this`groups, this`groupOrder, this`lbs, this`lbOrder, this`lbNodes, this`workers, this`workerOrder
      ensures Pools() == DropGroup(old(Pools()), old(groups[id].clusterID), id)
    {
      RemoveWorkersOf(id);
      RemoveBalancersOf(id);
      groups := groups - {id};
      groupOrder := RemoveFromOrder(groupOrder, id);
    }

    /** The scan reads the map for every listed node without a check: an order slice that disagreed would fail here. */
    method RemoveWorkersOf(groupID: string)
      requires Ordered(workerOrder, workers)
      modifies this`workers, this`workerOrder
      ensures workers == old(workers) - WorkersOf(old(workers), groupID)
      ensures workerOrder == Kept(old(workerOrder), WorkersOf(old(workers), groupID))
    {
      ghost var gone := WorkersOf(workers, groupID);
      var remaining: seq<string> := [];
      var i := 0;
      while i < |workerOrder|
        invariant 0 <= i <= |workerOrder| && workerOrder == old(workerOrder)
        invariant remaining == Kept(workerOrder[..i], gone)
        invariant workers == old(workers) - Seen(workerOrder, i, gone)
      {
        var id := workerOrder[i];
        PrefixStep(workerOrder, i, gone);
        SeenStep(workerOrder, i, gone);
        var wn := workers[id];
        if wn.groupID == groupID {
          MinusStep(old(workers), Seen(workerOrder, i, gone), id);
          workers := workers - {id};
        } else {
          remaining := remaining + [id];
        }
        i := i + 1;
      }
      assert workerOrder[..|workerOrder|] == workerOrder;
      assert Seen(workerOrder, |workerOrder|, gone) == gone;
      workerOrder := remaining;
    }

    method RemoveBalancersOf(groupID: string)
      requires Ordered(lbOrder, lbs)
      modifies this`lbs, this`lbOrder, this`lbNodes
      ensures lbs == old(lbs) - BalancersOf(old(lbs), groupID)
      ensures lbOrder == Kept(old(lbOrder), BalancersOf(old(lbs), groupID))
      ensures lbNodes == old(lbNodes) - BalancersOf(old(lbs), groupID)
    {
      ghost var gone := BalancersOf(lbs, groupID);
      var remaining: seq<string> := [];
      var i := 0;
      while i < |lbOrder|
        invariant 0 <= i <= |lbOrder| && lbOrder == old(lbOrder)
        invariant remaining == Kept(lbOrder[..i], gone)
        invariant lbs == old(lbs) - Seen(lbOrder, i, gone)
        invariant lbNodes == old(lbNodes) - Seen(lbOrder, i, gone)
      {
        var id := lbOrder[i];
        PrefixStep(lbOrder, i, gone);
        SeenStep(lbOrder, i, gone);
        var lb := lbs[id];
        if lb.groupID == groupID {
          MinusStep(old(lbNodes), Seen(lbOrder, i, gone), id);
          MinusStep(old(lbs), Seen(lbOrder, i, gone), id);
          lbNodes := lbNodes - {id};
          lbs := lbs - {id};
        } else {
          remaining := remaining + [id];
        }
        i := i + 1;
      }
      assert lbOrder[..|lbOrder|] == lbOrder;
      assert Seen(lbOrder, |lbOrder|, gone) == gone;
      lbOrder := remaining;
    }

    method CreateLoadBalancer(id: string, lb: LoadBalancer, nodeID: string) returns (ok: bool)
      requires PoolsInv(Pools()) && id !in lbs
      modifies this`groups, this`groupOrder, this`lbs, this`lbOrder, this`lbNodes, this`workers, this`workerOrder
      ensures PoolsInv(Pools())
      ensures Pools() == AddBalancer(old(Pools()), id, lb, nodeID)
      ensures ok == (lb.groupID in groups)
    {
      AddBalancerKeepsInv(Pools(), id, lb, nodeID);
      if lb.groupID !in groups {
        return false;
      }
      lbs := lbs[id := lb];
      lbOrder := lbOrder + [id];
      lbNodes := lbNodes[id := [nodeID]];
      ok := true;
    }

    method DeleteLoadBalancer(clusterID: string, groupID: string, id: string) returns (ok: bool)
      requires PoolsInv(Pools())
      modifies this`groups, this`groupOrder, this`lbs, this`lbOrder, this`lbNodes, this`workers, this`workerOrder
      ensures PoolsInv(Pools())
      ensures Pools() == DropBalancer(old(Pools()), clusterID, groupID, id)
      ensures ok == (OwnsBalancer(old(Pools()), clusterID, groupID, id))
    {
      DropBalancerKeepsInv(Pools(), clusterID, groupID, id);
      if id !in lbs || lbs[id].clusterID != clusterID || lbs[id].groupID != groupID {
        return false;
      }
      lbs := lbs - {id};
      lbNodes := lbNodes - {id};
      lbOrder := RemoveFromOrder(lbOrder, id);
      ok := true;
    }

    method UpdateWorkerNodeDraining(clusterID: string, groupID: string, id: string, draining: bool) returns (ok: bool)
      requires PoolsInv(Pools())
      modifies this`groups, this`groupOrder, this`lbs, this`lbOrder, this`lbNodes, this`workers, this`workerOrder
      ensures PoolsInv(Pools())
      ensures Pools() == Drain(old(Pools()), clusterID, groupID, id, draining)
      ensures ok == (OwnsWorker(old(Pools()), clusterID, groupID, id))
    {
      DrainKeepsInv(Pools(), clusterID, groupID, id, draining);
      if id !in workers || workers[id].clusterID != clusterID || workers[id].groupID != groupID {
        return false;
      }
      workers := workers[id := workers[id].(draining := draining)];
      ok := true;
    }

    /** One page of the group's worker nodes, in creation order. */
    method ListWorkerNodes(clusterID: string, groupID: string, cursor: string, maxItems: int)
      returns (page: seq<string>, next: Option<string>)
      requires Ordered(workerOrder, workers)
      ensures if groupID !in groups || groups[groupID].clusterID != clusterID then page == [] && next == None
              else CursorPaging.Page(page, next) ==
                   CursorPaging.PageAfter(Kept(workerOrder, workers.Keys - WorkersOf(workers, groupID)), cursor, maxItems)
    {
      if groupID !in groups || groups[groupID].clusterID != clusterID {
        return [], None;
      }
      var items := ListedWorkers(groupID);
      page, next := CursorPaging.PageOfIds(items, cursor, maxItems);
    }

    method ListedWorkers(groupID: string) returns (items: seq<string>)
      requires Ordered(workerOrder, workers)
      ensures items == Kept(workerOrder, workers.Keys - WorkersOf(workers, groupID))
    {
      ghost var others := workers.Keys - WorkersOf(workers, groupID);
      items := [];
      var i := 0;
      while i < |workerOrder|
        invariant 0 <= i <= |workerOrder|
        invariant items == Kept(workerOrder[..i], others)
      {
        var id := workerOrder[i];
        PrefixStep(workerOrder, i, others);
        if workers[id].groupID == groupID {
          items := items + [id];
        }
        i := i + 1;
      }
      assert workerOrder[..|workerOrder|] == workerOrder;
    }
  }
}
