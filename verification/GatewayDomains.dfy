/**
 Custom domains and the certificates they use. Updating a domain writes the new
 certificate before checking it, so a refused update is not without effect.
 */
module GatewayDomains {
  import opened Prelude
  import opened KeyedMaps
  import opened GatewayState
  import opened GatewayRoutes

  datatype Names = Names(domains: map<string, Domain>, certificates: map<string, Certificate>)

  ghost predicate NamesInv(n: Names) {
    Unique(n.domains, DomainKey) && Unique(n.certificates, CertificateKey) && "" !in n.certificates
  }

  predicate Certified(d: Domain, certificates: map<string, Certificate>) {
    if d.certificateID == "" then d.certificateName == ""
    else d.certificateID in certificates && d.certificateName == certificates[d.certificateID].name
  }

  /** Every domain's certificate is live and named correctly. */
  ghost predicate AllCertified(n: Names) {
    forall d :: d in n.domains ==> Certified(n.domains[d], n.certificates)
  }

  // ---------------------------------------------------------------- operations

  function ResolveCertificate(certificates: map<string, Certificate>, d: Domain): Outcome<Domain> {
    if d.certificateID == "" then Outcome(d.(certificateName := ""), Done)
    else if d.certificateID !in certificates then Outcome(d, NotFound)
    else Outcome(d.(certificateName := certificates[d.certificateID].name), Done)
  }

  ghost function CreateDomain(n: Names, id: string, d: Domain): Outcome<Names> {
    if Taken(n.domains, DomainKey, Some(d.domainName), {}) then Outcome(n, Conflict)
    else
      var resolved := ResolveCertificate(n.certificates, d);
      if resolved.status != Done then Outcome(n, resolved.status)
      else Outcome(n.(domains := n.domains[id := resolved.state]), Done)
  }

  /** The stored domain takes the identifier even when the check then fails. */
  function UpdateDomain(n: Names, id: string, certificateID: string): Outcome<Names> {
    if id !in n.domains then Outcome(n, NotFound)
    else
      var resolved := ResolveCertificate(n.certificates, n.domains[id].(certificateID := certificateID));
      Outcome(n.(domains := n.domains[id := resolved.state]), resolved.status)
  }

  ghost predicate HostInUse(routes: map<string, Route>, host: string) {
    exists r :: r in routes && host in routes[r].hosts
  }

  ghost function DeleteDomain(n: Names, routes: map<string, Route>, id: string): Outcome<Names> {
    if id !in n.domains then Outcome(n, NotFound)
    else if HostInUse(routes, n.domains[id].domainName) then Outcome(n, BadRequest)
    else Outcome(n.(domains := n.domains - {id}), Done)
  }

  ghost function CreateCertificate(n: Names, id: string, c: Certificate): Outcome<Names> {
    if Taken(n.certificates, CertificateKey, Some(c.name), {}) then Outcome(n, Conflict)
    else Outcome(n.(certificates := n.certificates[id := c]), Done)
  }

  function DomainRenamed(d: Domain, id: string, name: string): Domain {
    if d.certificateID == id then d.(certificateName := name) else d
  }

  /** Key pairs that are not given stay; the new name reaches every domain that uses the certificate. */
  ghost function UpdateCertificate(n: Names, id: string, c: Certificate): Outcome<Names> {
    if id !in n.certificates then Outcome(n, NotFound)
    else if Taken(n.certificates, CertificateKey, Some(c.name), {id}) then Outcome(n, Conflict)
    else
      var cur := n.certificates[id];
      var stored := Certificate(c.name, if c.rsa.Some? then c.rsa else cur.rsa, if c.ecdsa.Some? then c.ecdsa else cur.ecdsa);
      Outcome(n.(certificates := n.certificates[id := stored],
                 domains := map d | d in n.domains :: DomainRenamed(n.domains[d], id, c.name)), Done)
  }

  ghost predicate CertificateInUse(domains: map<string, Domain>, id: string) {
    exists d :: d in domains && domains[d].certificateID == id
  }

  ghost function DeleteCertificate(n: Names, id: string): Outcome<Names> {
    if id !in n.certificates then Outcome(n, NotFound)
    else if CertificateInUse(n.domains, id) then Outcome(n, BadRequest)
    else Outcome(n.(certificates := n.certificates - {id}), Done)
  }

  // ---------------------------------------------------------------- one step

  datatype Op =
    | CreatingDomain(id: string, domain: Domain)
    | UpdatingDomain(id: string, certificateID: string)
    | DeletingDomain(id: string)
    | CreatingCertificate(id: string, certificate: Certificate)
    | UpdatingCertificate(id: string, certificate: Certificate)
    | DeletingCertificate(id: string)

  predicate FreshName(n: Names, op: Op) {
    match op
    case CreatingDomain(id, _) => id !in n.domains
    case CreatingCertificate(id, _) => id != "" && id !in n.certificates
    case _ => true
  }

  ghost function StepNames(n: Names, routes: map<string, Route>, op: Op): Outcome<Names> {
    match op
    case CreatingDomain(id, d) => CreateDomain(n, id, d)
    case UpdatingDomain(id, certificateID) => UpdateDomain(n, id, certificateID)
    case DeletingDomain(id) => DeleteDomain(n, routes, id)
    case CreatingCertificate(id, c) => CreateCertificate(n, id, c)
    case UpdatingCertificate(id, c) => UpdateCertificate(n, id, c)
    case DeletingCertificate(id) => DeleteCertificate(n, id)
  }

  // ---------------------------------------------------------------- every step keeps it

  lemma StepKeepsNames(n: Names, routes: map<string, Route>, op: Op)
    requires NamesInv(n) && FreshName(n, op)
    ensures NamesInv(StepNames(n, routes, op).state)
  {
    var n' := StepNames(n, routes, op).state;
    hide Unique, Taken;
    match op
    case CreatingDomain(id, d) => if n' != n { NewNameIsUnique(n.domains, DomainKey, id, n'.domains[id]); }
    case UpdatingDomain(_, _) => UniqueSameKeys(n.domains, n'.domains, DomainKey);
    case DeletingDomain(_) => UniqueSameKeys(n.domains, n'.domains, DomainKey);
    case CreatingCertificate(id, c) => if n' != n { NewNameIsUnique(n.certificates, CertificateKey, id, c); }
    case UpdatingCertificate(id, c) =>
      if n' != n {
        UniqueUpdate(n.certificates, CertificateKey, id, n'.certificates[id]);
        UniqueSameKeys(n.domains, n'.domains, DomainKey);
      }
    case DeletingCertificate(_) => UniqueSameKeys(n.certificates, n'.certificates, CertificateKey);
  }

  /** The hosts routes answer on stay registered: a domain in use is not deleted, and none is renamed. */
  lemma StepKeepsHosts(n: Names, routes: map<string, Route>, op: Op)
    requires HostsKnown(routes, n.domains) && FreshName(n, op)
    ensures HostsKnown(routes, StepNames(n, routes, op).state.domains)
  {
    var n' := StepNames(n, routes, op).state;
    forall r, h | r in routes && h in routes[r].hosts && h != routes[r].host ensures Registered(n'.domains, h) {
      assert HostsAllowed(n.domains, routes[r].host, routes[r].hosts);
      var d :| d in n.domains && n.domains[d].domainName == h;
      assert d in n'.domains && n'.domains[d].domainName == h;
    }
  }

  /** The one call whose refusal changes the store. */
  predicate RefusedUpdate(n: Names, op: Op) {
    op.UpdatingDomain? && op.id in n.domains && op.certificateID != "" && op.certificateID !in n.certificates
  }

  lemma StepKeepsCertified(n: Names, routes: map<string, Route>, op: Op)
    requires AllCertified(n) && "" !in n.certificates && FreshName(n, op)
    ensures AllCertified(StepNames(n, routes, op).state) <==> !RefusedUpdate(n, op)
  {
    var n' := StepNames(n, routes, op).state;
    if RefusedUpdate(n, op) {
      assert !Certified(n'.domains[op.id], n'.certificates);
    } else {
      forall d | d in n'.domains ensures Certified(n'.domains[d], n'.certificates) {
        assert d in n.domains ==> Certified(n.domains[d], n.certificates);
      }
    }
  }

  /** A refused call changes something exactly when it points a domain at a certificate that is not there. */
  lemma RefusedNamesChange(n: Names, routes: map<string, Route>, op: Op)
    ensures var o := StepNames(n, routes, op);
            o.status != Done ==>
              (o.state != n <==> RefusedUpdate(n, op) && n.domains[op.id].certificateID != op.certificateID)
    ensures RefusedUpdate(n, op) ==> StepNames(n, routes, op).status == NotFound
  {
    var o := StepNames(n, routes, op);
    if RefusedUpdate(n, op) {
      assert o.state.domains[op.id].certificateID == op.certificateID;
    }
  }

  /** What a refused update leaves behind: the old name beside an identifier of nothing. */
  lemma RefusedUpdateExample()
    ensures var n := Names(map["d" := Domain("a.example", "c", "main")], map["c" := Certificate("main", None, None)]);
            var o := UpdateDomain(n, "d", "gone");
            && AllCertified(n)
            && o.status == NotFound
            && o.state.domains["d"] == Domain("a.example", "gone", "main")
            && !AllCertified(o.state)
  {
    var n := Names(map["d" := Domain("a.example", "c", "main")], map["c" := Certificate("main", None, None)]);
    assert !Certified(UpdateDomain(n, "d", "gone").state.domains["d"], n.certificates);
  }
}
