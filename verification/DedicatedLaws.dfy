/**
 What each call of the dedicated control plane leaves behind, told on the maps
 and the order slices: when it has an effect, what is then stored, what is gone,
 and that nothing else changes.
 */
module DedicatedLaws {
  import opened Prelude
  import opened KeyedMaps
  import opened OrderLists
  import opened DedicatedStore

  /** Exactly the entries outside `gone` are left, as they were and in the order they had. */
  ghost predicate Left<V>(m: map<string, V>, order: seq<string>, m': map<string, V>, order': seq<string>, gone: set<string>) {
    && (forall k :: k in m' <==> k in m && k !in gone)
    && (forall k :: k in m' ==> m'[k] == m[k])
    && Ordered(order', m') && SameOrder(order, order')
  }

  lemma KeptIsLeft<V>(m: map<string, V>, order: seq<string>, gone: set<string>)
    requires Ordered(order, m)
    ensures Left(m, order, m - gone, Kept(order, gone), gone)
  {
    OrderedDrop(order, m, gone);
    KeptKeepsOrder(order, gone);
  }

  // ---------------------------------------------------------------- clusters

  lemma ClusterCreated(s: State, id: string, name: string)
    ensures var s' := Step(s, CreateCluster(id, name));
            && id in s'.clusters && s'.clusters[id] == name && OthersSame(s.clusters, s'.clusters, id)
            && s'.clusterOrder == s.clusterOrder + [id]
            && s' == s.(clusters := s'.clusters, clusterOrder := s'.clusterOrder)
  {
  }

  lemma ClusterDeleted(s: State, id: string)
    requires Inv(s)
    ensures var s' := Step(s, DeleteCluster(id));
            && Left(s.clusters, s.clusterOrder, s'.clusters, s'.clusterOrder, {id})
            && s' == s.(clusters := s'.clusters, clusterOrder := s'.clusterOrder)
  {
    KeptIsLeft(s.clusters, s.clusterOrder, {id});
  }

  // ---------------------------------------------------------------- certificates

  lemma CertificateCreated(s: State, id: string, cert: Certificate, now: int)
    ensures var s' := Step(s, CreateCertificate(id, cert, now));
            var c, c' := s.certs, s'.certs;
            && (cert.clusterID !in s.clusters ==> s' == s)
            && (cert.clusterID in s.clusters ==>
                  && id in c'.certificates
                  && var v := c'.certificates[id];
                     && v.clusterID == cert.clusterID && v.name == cert.name
                     && v.certificatePem == cert.certificatePem && v.privateKeyPem == cert.privateKeyPem
                     && v.intermediatePem == cert.intermediatePem
                     && (cert.commonName != "" ==> v.commonName == cert.commonName)
                     && (cert.commonName == "" ==> v.commonName == "mock.example.com")
                     && (cert.subjects.Some? ==> v.subjects == cert.subjects)
                     && (cert.subjects.None? ==> v.subjects == Some([v.commonName]))
                     && (cert.notBefore != 0 ==> v.notBefore == cert.notBefore)
                     && (cert.notBefore == 0 ==> v.notBefore == now)
                     && (cert.notAfter != 0 ==> v.notAfter == cert.notAfter)
                     && (cert.notAfter == 0 ==> v.notAfter == now + 365 * 24 * 3600)
                     && OthersSame(c.certificates, c'.certificates, id) && c'.order == c.order + [id]
                     && s' == s.(certs := c'))
  {
  }

  lemma CertificateUpdated(s: State, clusterID: string, id: string, u: Certificate)
    ensures var s' := Step(s, UpdateCertificate(clusterID, id, u));
            var c, c' := s.certs, s'.certs;
            && (!(id in c.certificates && c.certificates[id].clusterID == clusterID) ==> s' == s)
            && (id in c.certificates && c.certificates[id].clusterID == clusterID ==>
                  && id in c'.certificates
                  && var v, w := c'.certificates[id], c.certificates[id];
                     && v.name == u.name && v.certificatePem == u.certificatePem && v.privateKeyPem == u.privateKeyPem
                     && v.intermediatePem == u.intermediatePem
                     && v.clusterID == w.clusterID && v.commonName == w.commonName && v.subjects == w.subjects
                     && v.notBefore == w.notBefore && v.notAfter == w.notAfter
                     && OthersSame(c.certificates, c'.certificates, id) && c'.order == c.order && s' == s.(certs := c'))
  {
  }

  lemma CertificateDeleted(s: State, clusterID: string, id: string)
    requires Inv(s)
    ensures var s' := Step(s, DeleteCertificate(clusterID, id));
            var c, c' := s.certs, s'.certs;
            if id in c.certificates && c.certificates[id].clusterID == clusterID
            then Left(c.certificates, c.order, c'.certificates, c'.order, {id}) && s' == s.(certs := c')
            else s' == s
  {
    hide Left, Ordered, AppsInv, PoolsInv;
    KeptIsLeft(s.certs.certificates, s.certs.order, {id});
  }

  // ---------------------------------------------------------------- applications

  lemma ApplicationCreated(s: State, id: string, app: Application)
    ensures var s' := Step(s, CreateApplication(id, app));
            var a, a' := s.apps, s'.apps;
            && id in a'.applications && a'.applications[id] == app && OthersSame(a.applications, a'.applications, id)
            && a'.order == a.order + [id]
            && id in a'.versionSeqs && a'.versionSeqs[id] == 0 && OthersSame(a.versionSeqs, a'.versionSeqs, id)
            && a'.versions == a.versions && s' == s.(apps := a')
  {
  }

  /** Everything kept for the application goes with it. */
  lemma ApplicationDeleted(s: State, id: string)
    requires Inv(s)
    ensures var s' := Step(s, DeleteApplication(id));
            var a, a' := s.apps, s'.apps;
            && Left(a.applications, a.order, a'.applications, a'.order, {id})
            && id !in a'.versions && OthersSame(a.versions, a'.versions, id)
            && id !in a'.versionSeqs && OthersSame(a.versionSeqs, a'.versionSeqs, id)
            && s' == s.(apps := a')
  {
    hide Left, Ordered, Kept, CertsInv, PoolsInv, VersionsIssued;
    assert Ordered(s.apps.order, s.apps.applications);
    if id in s.apps.applications {
      KeptIsLeft(s.apps.applications, s.apps.order, {id});
    } else {
      NothingLeaves(s.apps.applications, s.apps.order, id);
    }
  }

  lemma NothingLeaves<V>(m: map<string, V>, order: seq<string>, id: string)
    requires Ordered(order, m) && id !in m
    ensures Left(m, order, m, order, {id})
  {
  }

  /** `k` is the position of the first version with the number. */
  predicate FirstVersion(vs: seq<Version>, number: int, k: nat) {
    k < |vs| && vs[k].number == number && forall j :: 0 <= j < k ==> vs[j].number != number
  }

  /**
   Activating takes the scale of the first version with the number: its fixed
   scale in manual mode, its lower scale in cpu mode; another mode, or no such
   version, leaves the count alone. Deactivating clears both.
   */
  lemma ApplicationUpdated(s: State, id: string, active: Option<int>)
    ensures var s' := Step(s, UpdateApplication(id, active));
            var a, a' := s.apps, s'.apps;
            && (id !in a.applications ==> s' == s)
            && (id in a.applications ==>
                  && id in a'.applications
                  && var v, w := a'.applications[id], a.applications[id];
                     var vs := if id in a.versions then a.versions[id] else [];
                     && v.name == w.name && v.clusterID == w.clusterID && v.activeVersion == active
                     && (active.None? ==> v.desiredCount == None)
                     && (active.Some? ==>
                           && (forall k: nat :: FirstVersion(vs, active.value, k) ==>
                                 v.desiredCount == if vs[k].scalingMode == "manual" then vs[k].fixedScale
                                                   else if vs[k].scalingMode == "cpu" then vs[k].minScale
                                                   else w.desiredCount)
                           && ((forall k :: 0 <= k < |vs| ==> vs[k].number != active.value) ==>
                                 v.desiredCount == w.desiredCount))
                     && OthersSame(a.applications, a'.applications, id)
                     && s' == s.(apps := a.(applications := a'.applications)))
  {
    if id in s.apps.applications && active.Some? {
      DesiredCountReads(VersionsOf(s.apps.versions, id), active.value, s.apps.applications[id].desiredCount);
    }
    hide DesiredCount, FirstVersion;
  }

  lemma {:induction false} DesiredCountReads(vs: seq<Version>, number: int, before: Option<int>)
    ensures forall k: nat :: FirstVersion(vs, number, k) ==>
              DesiredCount(vs, number, before) == if vs[k].scalingMode == "manual" then vs[k].fixedScale
                                                  else if vs[k].scalingMode == "cpu" then vs[k].minScale
                                                  else before
    ensures (forall k :: 0 <= k < |vs| ==> vs[k].number != number) ==> DesiredCount(vs, number, before) == before
  {
    if vs != [] && vs[0].number != number {
      DesiredCountReads(vs[1..], number, before);
      forall k: nat | FirstVersion(vs, number, k) ensures k > 0 && FirstVersion(vs[1..], number, k - 1) {}
    }
  }

  // ---------------------------------------------------------------- versions

  /** The version goes last, under the next number of the counter; any number it carries is ignored. */
  lemma VersionCreated(s: State, id: string, version: Version)
    requires Inv(s)
    ensures var s' := Step(s, CreateVersion(id, version));
            var a, a' := s.apps, s'.apps;
            && (id !in a.applications ==> s' == s)
            && (id in a.applications ==>
                  && id in a.versionSeqs && id in a'.versionSeqs && id in a'.versions
                  && a'.versionSeqs[id] == Increment32(a.versionSeqs[id])
                  && a'.versions[id] == (if id in a.versions then a.versions[id] else []) +
                                        [Version(a'.versionSeqs[id], version.scalingMode, version.fixedScale, version.minScale)]
                  && OthersSame(a.versions, a'.versions, id) && OthersSame(a.versionSeqs, a'.versionSeqs, id)
                  && a'.applications == a.applications && a'.order == a.order && s' == s.(apps := a'))
  {
    if id in s.apps.applications {
      IncrementWraps(s.apps.created[id]);
    }
    hide Wrap32, Increment32, CertsInv, PoolsInv, VersionsIssued, Ordered;
  }

  /** The first version with the number is taken out; the counter does not go back. */
  lemma VersionDeleted(s: State, id: string, number: int)
    ensures var s' := Step(s, DeleteVersion(id, number));
            var a, a' := s.apps, s'.apps;
            var vs := if id in a.versions then a.versions[id] else [];
            && ((forall k :: 0 <= k < |vs| ==> vs[k].number != number) ==> s' == s)
            && (forall k: nat :: FirstVersion(vs, number, k) ==>
                  && id in a'.versions && a'.versions[id] == vs[..k] + vs[k + 1..]
                  && OthersSame(a.versions, a'.versions, id)
                  && s' == s.(apps := a.(versions := a'.versions)))
  {
    hide HasVersion, FirstVersion, Cut;
    VersionFound(VersionsOf(s.apps.versions, id), number);
  }

  lemma VersionFound(vs: seq<Version>, number: int)
    ensures HasVersion(vs, number) || forall k :: 0 <= k < |vs| ==> vs[k].number != number
    ensures (forall k :: 0 <= k < |vs| ==> vs[k].number != number) ==> !HasVersion(vs, number)
    ensures forall k: nat :: FirstVersion(vs, number, k) ==>
              k < |vs| && HasVersion(vs, number) && Cut(vs, NumberOf, number) == vs[..k] + vs[k + 1..]
  {
    CutIs(vs, NumberOf, number);
    hide Cut;
    forall k: nat | FirstVersion(vs, number, k) ensures FirstWith(vs, NumberOf, number) == k {}
  }

  // ---------------------------------------------------------------- scaling groups

  /** The group counts its minimum, and a node that takes work is there for each given identifier. */
  lemma GroupCreated(s: State, id: string, g: ScalingGroup, nodeIDs: seq<string>)
    requires Fresh(s, CreateGroup(id, g, nodeIDs))
    ensures var s' := Step(s, CreateGroup(id, g, nodeIDs));
            var p, p' := s.pools, s'.pools;
            && (g.clusterID !in s.clusters ==> s' == s)
            && (g.clusterID in s.clusters ==>
                  && id in p'.groups && p'.groups[id] == ScalingGroup(g.clusterID, g.name, g.minNodes, g.minNodes)
                  && OthersSame(p.groups, p'.groups, id) && p'.groupOrder == p.groupOrder + [id]
                  && |nodeIDs| == (if g.minNodes >= 0 then g.minNodes else 0)
                  && (forall n :: n in nodeIDs ==>
                        n !in p.workers && n in p'.workers && p'.workers[n] == WorkerNode(g.clusterID, id, false))
                  && (forall n :: n !in nodeIDs ==>
                        && (n in p.workers <==> n in p'.workers)
                        && (n in p.workers ==> p'.workers[n] == p.workers[n]))
                  && p'.workerOrder == p.workerOrder + nodeIDs
                  && p'.lbs == p.lbs && p'.lbOrder == p.lbOrder && p'.lbNodes == p.lbNodes
                  && s' == s.(pools := p'))
  {
  }

  /**
   The group goes, and with it every worker node and load balancer of it and the
   nodes kept for those balancers. All others stay, in the order they had.
   */
  lemma GroupDeleted(s: State, clusterID: string, id: string)
    requires Inv(s)
    ensures var s' := Step(s, DeleteGroup(clusterID, id));
            var p, p' := s.pools, s'.pools;
            && (!(id in p.groups && p.groups[id].clusterID == clusterID) ==> s' == s)
            && (id in p.groups && p.groups[id].clusterID == clusterID ==>
                  && Left(p.groups, p.groupOrder, p'.groups, p'.groupOrder, {id})
                  && Ordered(p'.workerOrder, p'.workers) && SameOrder(p.workerOrder, p'.workerOrder)
                  && (forall w :: w in p'.workers <==> w in p.workers && p.workers[w].groupID != id)
                  && (forall w :: w in p'.workers ==> p'.workers[w] == p.workers[w])
                  && Ordered(p'.lbOrder, p'.lbs) && SameOrder(p.lbOrder, p'.lbOrder)
                  && (forall b :: b in p'.lbs <==> b in p.lbs && p.lbs[b].groupID != id)
                  && (forall b :: b in p'.lbs ==> p'.lbs[b] == p.lbs[b])
                  && p'.lbNodes.Keys == p'.lbs.Keys
                  && (forall b :: b in p'.lbNodes ==> p'.lbNodes[b] == p.lbNodes[b])
                  && s' == s.(pools := p'))
  {
    var p := s.pools;
    KeptIsLeft(p.groups, p.groupOrder, {id});
    KeptIsLeft(p.workers, p.workerOrder, WorkersOf(p.workers, id));
    KeptIsLeft(p.lbs, p.lbOrder, BalancersOf(p.lbs, id));
    hide Ordered, SameOrder, CertsInv, AppsInv, CountsAgree, Kept;
  }

  // ---------------------------------------------------------------- load balancers and nodes

  lemma BalancerCreated(s: State, id: string, lb: LoadBalancer, nodeID: string)
    ensures var s' := Step(s, CreateBalancer(id, lb, nodeID));
            var p, p' := s.pools, s'.pools;
            && (lb.groupID !in p.groups ==> s' == s)
            && (lb.groupID in p.groups ==>
                  && id in p'.lbs && p'.lbs[id] == lb && OthersSame(p.lbs, p'.lbs, id)
                  && id in p'.lbNodes && p'.lbNodes[id] == [nodeID] && OthersSame(p.lbNodes, p'.lbNodes, id)
                  && p'.lbOrder == p.lbOrder + [id]
                  && s' == s.(pools := p.(lbs := p'.lbs, lbOrder := p'.lbOrder, lbNodes := p'.lbNodes)))
  {
  }

  lemma BalancerDeleted(s: State, clusterID: string, groupID: string, id: string)
    requires Inv(s)
    ensures var s' := Step(s, DeleteBalancer(clusterID, groupID, id));
            var p, p' := s.pools, s'.pools;
            if id in p.lbs && p.lbs[id].clusterID == clusterID && p.lbs[id].groupID == groupID
            then && Left(p.lbs, p.lbOrder, p'.lbs, p'.lbOrder, {id})
                 && id !in p'.lbNodes && OthersSame(p.lbNodes, p'.lbNodes, id)
                 && s' == s.(pools := p.(lbs := p'.lbs, lbOrder := p'.lbOrder, lbNodes := p'.lbNodes))
            else s' == s
  {
    var p := s.pools;
    assert Ordered(p.lbOrder, p.lbs) by {
      hide Ordered, CertsInv, AppsInv;
    }
    hide Inv, Left, Ordered, Kept;
    KeptIsLeft(p.lbs, p.lbOrder, {id});
  }

  /** The node carries the flag given, and is otherwise what it was. */
  lemma DrainingSet(s: State, clusterID: string, groupID: string, id: string, draining: bool)
    ensures var s' := Step(s, SetDraining(clusterID, groupID, id, draining));
            var p, p' := s.pools, s'.pools;
            if id in p.workers && p.workers[id].clusterID == clusterID && p.workers[id].groupID == groupID
            then && id in p'.workers && p'.workers[id] == WorkerNode(clusterID, groupID, draining)
                 && OthersSame(p.workers, p'.workers, id)
                 && s' == s.(pools := p.(workers := p'.workers))
            else s' == s
  {
  }

  // ---------------------------------------------------------------- what a deletion undoes

  /** The call that takes back what a creation stored. */
  function Undo(op: Op): Option<Op> {
    match op
    case CreateCluster(id, _) => Some(DeleteCluster(id))
    case CreateCertificate(id, cert, _) => Some(DeleteCertificate(cert.clusterID, id))
    case CreateApplication(id, _) => Some(DeleteApplication(id))
    case CreateGroup(id, g, _) => Some(DeleteGroup(g.clusterID, id))
    case CreateBalancer(id, lb, _) => Some(DeleteBalancer(lb.clusterID, lb.groupID, id))
    case _ => None
  }

  /** Deleting what was just created gives the store back as it was, order slices and nodes included. */
  lemma DeletionUndoesCreation(s: State, op: Op)
    requires Inv(s) && Fresh(s, op) && Undo(op).Some?
    ensures Step(Step(s, op), Undo(op).value) == s
  {
    hide Kept, Issued, AppsInv, CertsInv, PoolsInv, AddGroup, DropGroup, AddApp, DropApp, AddBalancer, DropBalancer;
    match op
    case CreateCluster(id, name) => AddedThenGone(s.clusters, s.clusterOrder, id, name);
    case CreateCertificate(id, cert, now) => CertificateUndone(s.certs, id, cert, now);
    case CreateApplication(id, app) => ApplicationUndone(s.apps, id, app);
    case CreateGroup(id, g, nodeIDs) => GroupUndone(s.pools, id, g, nodeIDs);
    case CreateBalancer(id, lb, nodeID) => BalancerUndone(s.pools, id, lb, nodeID);
  }

  lemma AddedThenGone<V>(m: map<string, V>, order: seq<string>, id: string, v: V)
    requires id !in m && id !in order
    ensures m[id := v] - {id} == m && Kept(order + [id], {id}) == order
    ensures m - {id} == m
  {
    AddedThenKept(order, [id], {id});
  }

  lemma CertificateUndone(c: CertState, id: string, cert: Certificate, now: int)
    requires CertsInv(c) && id !in c.certificates
    ensures DropCertificate(AddCertificate(c, id, cert, now), cert.clusterID, id) == c
    ensures DropCertificate(c, cert.clusterID, id) == c
  {
    AddedThenGone(c.certificates, c.order, id, Issued(cert, now));
    assert Issued(cert, now).clusterID == cert.clusterID;
    hide Kept, CertsInv;
  }

  lemma ApplicationUndone(a: AppState, id: string, app: Application)
    requires AppsInv(a) && id !in a.applications
    ensures DropApp(AddApp(a, id, app), id) == a
  {
    assert id !in a.order && id !in a.versions && id !in a.versionSeqs && id !in a.created;
    hide *;
    AddedThenGone(a.applications, a.order, id, app);
    AddedThenGone(a.versionSeqs, a.order, id, 0);
    AddedThenGone(a.created, a.order, id, 0);
    assert a.versions - {id} == a.versions;
    AppUndone(a, id, app);
  }

  lemma AppUndone(a: AppState, id: string, app: Application)
    requires a.applications[id := app] - {id} == a.applications && Kept(a.order + [id], {id}) == a.order
    requires a.versions - {id} == a.versions && a.versionSeqs[id := 0] - {id} == a.versionSeqs
    requires a.created[id := 0] - {id} == a.created
    ensures DropApp(AddApp(a, id, app), id) == a
  {
    hide Kept;
  }

  lemma GroupUndone(p: PoolState, id: string, g: ScalingGroup, nodeIDs: seq<string>)
    requires PoolsInv(p) && id !in p.groups && FreshNodes(p, g, nodeIDs)
    ensures DropGroup(AddGroup(p, id, g, nodeIDs), g.clusterID, id) == p
    ensures DropGroup(p, g.clusterID, id) == p
  {
    var p', new' := AddGroup(p, id, g, nodeIDs), NewWorkers(g, id, nodeIDs);
    assert id !in p.groupOrder && forall n :: n in nodeIDs ==> n !in p.workerOrder;
    NewOnesGo(p, id, g, nodeIDs);
    hide Kept, PoolsInv, WorkersOf, BalancersOf, FreshNodes, NewWorkers;
    AddedThenGone(p.groups, p.groupOrder, id, g.(workerNodeCount := g.minNodes));
    AddedThenKept(p.workerOrder, nodeIDs, new'.Keys);
    AddedThenKept(p.lbOrder, [], {});
    assert p.lbOrder + [] == p.lbOrder;
  }

  lemma NewOnesGo(p: PoolState, id: string, g: ScalingGroup, nodeIDs: seq<string>)
    requires WorkersHaveGroups(p.groups, p.workers) && BalancersHaveGroups(p.groups, p.lbs)
    requires id !in p.groups && FreshNodes(p, g, nodeIDs)
    ensures var new' := NewWorkers(g, id, nodeIDs);
            && (forall n :: n in nodeIDs <==> n in new')
            && WorkersOf(p.workers + new', id) == new'.Keys && p.workers + new' - new'.Keys == p.workers
    ensures BalancersOf(p.lbs, id) == {} && p.lbs - {} == p.lbs && p.lbNodes - {} == p.lbNodes
  {
  }

  lemma BalancerUndone(p: PoolState, id: string, lb: LoadBalancer, nodeID: string)
    requires PoolsInv(p) && id !in p.lbs
    ensures DropBalancer(AddBalancer(p, id, lb, nodeID), lb.clusterID, lb.groupID, id) == p
    ensures DropBalancer(p, lb.clusterID, lb.groupID, id) == p
  {
    assert id !in p.lbOrder && id !in p.lbNodes;
    hide Kept, PoolsInv;
    AddedThenGone(p.lbs, p.lbOrder, id, lb);
    AddedThenGone(p.lbNodes, p.lbOrder, id, [nodeID]);
  }

  lemma {:induction false} AddedThenKept(order: seq<string>, more: seq<string>, drop: set<string>)
    requires forall x :: x in order ==> x !in drop
    requires forall x :: x in more ==> x in drop
    ensures Kept(order + more, drop) == order
    decreases |order| + |more|
  {
    if order != [] {
      assert (order + more)[1..] == order[1..] + more;
      AddedThenKept(order[1..], more, drop);
    } else if more != [] {
      assert order + more == more && order + more[1..] == more[1..];
      AddedThenKept(order, more[1..], drop);
    }
  }
}
