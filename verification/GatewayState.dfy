/**
 The control plane's resources and the outcome of a call. Fresh identifiers
 and the clock are parameters of the operations.
 */
module GatewayState {
  import opened Prelude

  datatype Status = Done | NotFound | Conflict | BadRequest

  datatype Outcome<S> = Outcome(state: S, status: Status)

  datatype OidcRef = OidcRef(id: string, name: string)

  datatype Storage = Storage(bucket: string, useDocumentIndex: Option<bool>)

  datatype Service = Service(
    name: string, protocol: string, path: string, port: int, retries: Option<int>,
    connectTimeout: int, writeTimeout: int, readTimeout: int,
    authentication: string, oidc: Option<OidcRef>, storage: Option<Storage>,
    routeHost: string, subscriptionID: string)

  datatype Summary = Summary(id: string, name: string)

  datatype Subscription = Subscription(
    name: string, planID: string, boundServiceID: string, service: Option<Summary>)

  datatype Oidc = Oidc(name: string, issuer: string)

  datatype AclEntry = AclEntry(id: string, name: string, enabled: bool)

  datatype Acl = Acl(isEnabled: bool, groups: seq<AclEntry>)

  datatype Route = Route(
    createdAt: int, serviceID: string, name: string, path: string, host: string, hosts: seq<string>,
    methods: seq<string>, redirectStatus: int, regexPriority: int, stripPath: Option<bool>, acl: Option<Acl>)

  datatype Basic = Basic(id: string, userName: string, password: string)

  datatype Jwt = Jwt(id: string, key: string, secret: string, algorithm: string)

  datatype Hmac = Hmac(id: string, userName: string, secret: string)

  datatype Credentials = Credentials(basic: Option<Basic>, jwt: Option<Jwt>, hmac: Option<Hmac>)

  /** Client addresses that are let in, or kept out. */
  datatype Restriction = Restriction(restrictedBy: string, ips: seq<string>)

  /** What a caller gives about a consumer. */
  datatype Profile = Profile(name: string, customID: string, tags: seq<string>, restriction: Option<Restriction>)

  datatype User = User(
    name: string, customID: string, tags: seq<string>, restriction: Option<Restriction>,
    groupIDs: seq<string>, auth: Option<Credentials>)

  datatype Group = Group(name: string)

  datatype Domain = Domain(domainName: string, certificateID: string, certificateName: string)

  datatype Certificate = Certificate(name: string, rsa: Option<string>, ecdsa: Option<string>)

  // What must be unique among the entries of each map.

  function ServiceKey(v: Service): Option<string> { Some(v.name) }

  function SubscriptionKey(v: Subscription): Option<string> { Some(v.name) }

  function OidcKey(v: Oidc): Option<string> { Some(v.name) }

  function RouteKey(v: Route): Option<(string, string)> { Some((v.serviceID, v.name)) }

  function UserKey(v: User): Option<string> { Some(v.name) }

  function GroupKey(v: Group): Option<string> { Some(v.name) }

  function DomainKey(v: Domain): Option<string> { Some(v.domainName) }

  function CertificateKey(v: Certificate): Option<string> { Some(v.name) }

  function BasicKey(v: User): Option<string> {
    if v.auth.Some? && v.auth.value.basic.Some? then Some(v.auth.value.basic.value.userName) else None
  }

  function JwtKey(v: User): Option<string> {
    if v.auth.Some? && v.auth.value.jwt.Some? then Some(v.auth.value.jwt.value.key) else None
  }

  function HmacKey(v: User): Option<string> {
    if v.auth.Some? && v.auth.value.hmac.Some? then Some(v.auth.value.hmac.value.userName) else None
  }
}
