/**
 What an application may look like: the checks of create and patch requests, the
 inheritance of secrets, and the merge of a patch whose absent fields travel as
 sentinel values. Strings are byte strings, as their length limits count bytes.
 */
module AppRunConfig {
  import opened Prelude
  import opened OrderLists

  datatype EnvVar = EnvVar(key: string, value: string)

  /** A secret of a patch may leave its value out, to inherit it. */
  datatype SecretAsk = SecretAsk(key: string, value: Option<string>)

  datatype ComponentAsk = ComponentAsk(name: string, cpu: string, memory: string, env: seq<EnvVar>, secrets: seq<SecretAsk>)

  datatype Component = Component(name: string, cpu: string, memory: string, env: seq<EnvVar>, secrets: seq<EnvVar>)

  datatype App = App(
    name: string, timeout: int, port: int, minScale: int, maxScale: int, scaleTarget: int, components: seq<Component>)

  datatype CreateAsk = CreateAsk(
    name: string, timeout: int, port: int, minScale: int, maxScale: int, scaleTarget: int, components: seq<ComponentAsk>)

  datatype PatchAsk = PatchAsk(
    timeout: Option<int>, port: Option<int>, minScale: Option<int>, maxScale: Option<int>, scaleTarget: Option<int>,
    components: seq<ComponentAsk>)

  const RESERVED_PORTS: set<int> := {8008, 8012, 8013, 8022, 8443, 9090, 9091}

  const RESERVED_KEYS: set<string> := {"K_SERVICE", "K_CONFIGURATION", "K_REVISION", "PORT"}

  const CPU_MEMORY: set<(string, string)> := {("0.5", "1Gi"), ("1", "1Gi"), ("1", "2Gi"), ("2", "2Gi"), ("2", "4Gi")}

  const MAX_ENV := 50

  const MAX_KEY := 128

  const MAX_VALUE := 512

  // ---------------------------------------------------------------- components

  predicate ValidKey(key: string) {
    1 <= |key| <= MAX_KEY && key !in RESERVED_KEYS
  }

  predicate ValidValue(value: string) {
    1 <= |value| <= MAX_VALUE
  }

  function EnvKeys(env: seq<EnvVar>): (keys: seq<string>)
    ensures |keys| == |env| && forall i :: 0 <= i < |env| ==> keys[i] == env[i].key
  {
    if env == [] then [] else [env[0].key] + EnvKeys(env[1..])
  }

  function AskKeys(secrets: seq<SecretAsk>): (keys: seq<string>)
    ensures |keys| == |secrets| && forall i :: 0 <= i < |secrets| ==> keys[i] == secrets[i].key
  {
    if secrets == [] then [] else [secrets[0].key] + AskKeys(secrets[1..])
  }

  predicate ValidEnv(e: EnvVar) {
    ValidKey(e.key) && ValidValue(e.value)
  }

  /** A secret that leaves its value out is checked by its key alone. */
  predicate ValidSecret(s: SecretAsk) {
    ValidKey(s.key) && (s.value.Some? ==> ValidValue(s.value.value))
  }

  /** One namespace for both kinds: no key twice, at most fifty, each well formed. */
  predicate ValidAsk(c: ComponentAsk) {
    && (c.cpu, c.memory) in CPU_MEMORY
    && |c.env| + |c.secrets| <= MAX_ENV
    && (forall e :: e in c.env ==> ValidEnv(e))
    && (forall s :: s in c.secrets ==> ValidSecret(s))
    && Distinct(EnvKeys(c.env) + AskKeys(c.secrets))
  }

  /** The two loops over keys seen so far accept exactly what the namespace allows. */
  method ValidateComponent(c: ComponentAsk) returns (ok: bool)
    ensures ok == ValidAsk(c)
  {
    if (c.cpu, c.memory) !in CPU_MEMORY || |c.env| + |c.secrets| > MAX_ENV {
      return false;
    }
    var envKeys: set<string>;
    ok, envKeys := ScanEnv(c.env);
    if ok {
      ok := ScanSecrets(c.secrets, envKeys);
      JoinDistinct(EnvKeys(c.env), AskKeys(c.secrets));
    } else {
      PrefixDistinct(EnvKeys(c.env), AskKeys(c.secrets));
    }
  }

  ghost function KeySet(keys: seq<string>): set<string> {
    set k | k in keys
  }

  /** The next key is new exactly when the keys so far stay distinct. */
  lemma NextKey(keys: seq<string>, i: nat)
    requires i < |keys| && Distinct(keys[..i])
    ensures KeySet(keys[..i + 1]) == KeySet(keys[..i]) + {keys[i]}
    ensures Distinct(keys[..i + 1]) <==> keys[i] !in KeySet(keys[..i])
    ensures Distinct(keys) ==> Distinct(keys[..i + 1])
    ensures KeySet(keys[..i + 1]) <= KeySet(keys)
  {
    assert keys[..i + 1] == keys[..i] + [keys[i]];
    if keys[i] in keys[..i] {
      var j :| 0 <= j < i && keys[..i][j] == keys[i];
      assert keys[..i + 1][j] == keys[..i + 1][i];
    }
  }

  /** The first `i` entries are well formed and have distinct keys. */
  ghost predicate EnvSoFar(env: seq<EnvVar>, i: nat)
    requires i <= |env|
  {
    (forall j :: 0 <= j < i ==> ValidEnv(env[j])) && Distinct(EnvKeys(env)[..i])
  }

  lemma EnvStep(env: seq<EnvVar>, i: nat)
    requires i < |env| && EnvSoFar(env, i)
    ensures EnvSoFar(env, i + 1) <==> ValidEnv(env[i]) && env[i].key !in KeySet(EnvKeys(env)[..i])
    ensures KeySet(EnvKeys(env)[..i + 1]) == KeySet(EnvKeys(env)[..i]) + {env[i].key}
    ensures EnvSoFar(env, |env|) ==> EnvSoFar(env, i + 1)
  {
    hide ValidEnv, Distinct, KeySet, EnvKeys;
    assert EnvKeys(env)[..|env|] == EnvKeys(env);
    NextKey(EnvKeys(env), i);
  }

  lemma EnvAll(env: seq<EnvVar>)
    ensures EnvSoFar(env, |env|) <==> (forall e :: e in env ==> ValidEnv(e)) && Distinct(EnvKeys(env))
    ensures EnvSoFar(env, 0) && KeySet(EnvKeys(env)[..0]) == {}
  {
    hide ValidEnv;
    assert EnvKeys(env)[..|env|] == EnvKeys(env);
    forall j | 0 <= j < |env| ensures env[j] in env {}
  }

  method ScanEnv(env: seq<EnvVar>) returns (ok: bool, keys: set<string>)
    ensures ok == ((forall e :: e in env ==> ValidEnv(e)) && Distinct(EnvKeys(env)))
    ensures ok ==> keys == KeySet(EnvKeys(env))
  {
    hide EnvSoFar, Distinct, KeySet, ValidEnv, EnvKeys;
    EnvAll(env);
    keys := {};
    var i := 0;
    while i < |env|
      invariant 0 <= i <= |env|
      invariant EnvSoFar(env, i) && keys == KeySet(EnvKeys(env)[..i])
    {
      EnvStep(env, i);
      if !ValidEnv(env[i]) || env[i].key in keys {
        return false, {};
      }
      keys := keys + {env[i].key};
      i := i + 1;
    }
    assert EnvKeys(env)[..i] == EnvKeys(env);
    ok := true;
  }

  /** The first `i` secrets are well formed, with distinct keys that no entry has. */
  ghost predicate SecretsSoFar(secrets: seq<SecretAsk>, envKeys: set<string>, i: nat)
    requires i <= |secrets|
  {
    && (forall j :: 0 <= j < i ==> ValidSecret(secrets[j]))
    && Distinct(AskKeys(secrets)[..i])
    && KeySet(AskKeys(secrets)[..i]) !! envKeys
  }

  lemma SecretStep(secrets: seq<SecretAsk>, envKeys: set<string>, i: nat)
    requires i < |secrets| && SecretsSoFar(secrets, envKeys, i)
    ensures SecretsSoFar(secrets, envKeys, i + 1) <==>
            && ValidSecret(secrets[i])
            && secrets[i].key !in KeySet(AskKeys(secrets)[..i]) && secrets[i].key !in envKeys
    ensures KeySet(AskKeys(secrets)[..i + 1]) == KeySet(AskKeys(secrets)[..i]) + {secrets[i].key}
    ensures SecretsSoFar(secrets, envKeys, |secrets|) ==> SecretsSoFar(secrets, envKeys, i + 1)
  {
    hide ValidSecret, Distinct, KeySet, AskKeys;
    assert AskKeys(secrets)[..|secrets|] == AskKeys(secrets);
    NextKey(AskKeys(secrets), i);
  }

  lemma SecretsAll(secrets: seq<SecretAsk>, envKeys: set<string>)
    ensures SecretsSoFar(secrets, envKeys, |secrets|) <==>
            && (forall s :: s in secrets ==> ValidSecret(s))
            && Distinct(AskKeys(secrets)) && KeySet(AskKeys(secrets)) !! envKeys
    ensures SecretsSoFar(secrets, envKeys, 0) && KeySet(AskKeys(secrets)[..0]) == {}
  {
    hide ValidSecret;
    assert AskKeys(secrets)[..|secrets|] == AskKeys(secrets);
    forall j | 0 <= j < |secrets| ensures secrets[j] in secrets {}
  }

  method ScanSecrets(secrets: seq<SecretAsk>, envKeys: set<string>) returns (ok: bool)
    ensures ok == ((forall s :: s in secrets ==> ValidSecret(s))
                   && Distinct(AskKeys(secrets)) && KeySet(AskKeys(secrets)) !! envKeys)
  {
    hide SecretsSoFar, Distinct, KeySet, AskKeys, ValidSecret;
    SecretsAll(secrets, envKeys);
    var keys: set<string> := {};
    var i := 0;
    while i < |secrets|
      invariant 0 <= i <= |secrets|
      invariant SecretsSoFar(secrets, envKeys, i) && keys == KeySet(AskKeys(secrets)[..i])
    {
      SecretStep(secrets, envKeys, i);
      if !ValidSecret(secrets[i]) || secrets[i].key in keys || secrets[i].key in envKeys {
        return false;
      }
      keys := keys + {secrets[i].key};
      i := i + 1;
    }
    ok := true;
  }

  lemma JoinDistinct(a: seq<string>, b: seq<string>)
    requires Distinct(a)
    ensures Distinct(a + b) <==> Distinct(b) && KeySet(b) !! KeySet(a)
  {
    var all := a + b;
    if Distinct(all) {
      forall i, j | 0 <= i < j < |b| ensures b[i] != b[j] {
        assert all[|a| + i] == b[i] && all[|a| + j] == b[j];
      }
      forall k | k in KeySet(b) ensures k !in KeySet(a) {
        var j :| 0 <= j < |b| && b[j] == k;
        forall i | 0 <= i < |a| ensures a[i] != k {
          assert all[i] == a[i] && all[|a| + j] == k;
        }
      }
    } else {
      var i, j :| 0 <= i < j < |all| && all[i] == all[j];
      if i < |a| <= j {
        assert b[j - |a|] in KeySet(b) && a[i] in KeySet(a);
      } else if |a| <= i {
        assert b[i - |a|] == b[j - |a|];
      }
    }
  }

  lemma PrefixDistinct(a: seq<string>, b: seq<string>)
    ensures Distinct(a + b) ==> Distinct(a)
  {
    if Distinct(a + b) {
      forall i, j | 0 <= i < j < |a| ensures a[i] != a[j] {
        assert (a + b)[i] == a[i] && (a + b)[j] == a[j];
      }
    }
  }

  method ValidateComponents(comps: seq<ComponentAsk>) returns (ok: bool)
    ensures ok == forall c :: c in comps ==> ValidAsk(c)
  {
    var i := 0;
    while i < |comps|
      invariant 0 <= i <= |comps|
      invariant forall k :: 0 <= k < i ==> ValidAsk(comps[k])
    {
      var good := ValidateComponent(comps[i]);
      if !good {
        assert comps[i] in comps;
        return false;
      }
      i := i + 1;
    }
    ok := true;
  }

  // ---------------------------------------------------------------- secrets

  /** The first value stored for the key under a component of the name. */
  function StoredSecret(comps: seq<Component>, component: string, key: string): Option<string> {
    if comps == [] then None
    else
      var here := if comps[0].name == component then ValueOf(comps[0].secrets, key) else None;
      if here.Some? then here else StoredSecret(comps[1..], component, key)
  }

  function ValueOf(secrets: seq<EnvVar>, key: string): Option<string> {
    if secrets == [] then None else if secrets[0].key == key then Some(secrets[0].value) else ValueOf(secrets[1..], key)
  }

  lemma {:induction false} ValueIsStored(secrets: seq<EnvVar>, key: string)
    ensures ValueOf(secrets, key).Some? <==> exists s :: s in secrets && s.key == key
    ensures ValueOf(secrets, key).Some? ==> EnvVar(key, ValueOf(secrets, key).value) in secrets
  {
    if secrets != [] {
      ValueIsStored(secrets[1..], key);
      assert forall s :: s in secrets <==> s == secrets[0] || s in secrets[1..];
    }
  }

  lemma {:induction false} SecretIsStored(comps: seq<Component>, component: string, key: string)
    ensures StoredSecret(comps, component, key).Some? <==>
            exists c :: c in comps && c.name == component && exists s :: s in c.secrets && s.key == key
    ensures StoredSecret(comps, component, key).Some? ==>
              exists c :: c in comps && c.name == component
                          && EnvVar(key, StoredSecret(comps, component, key).value) in c.secrets
  {
    if comps != [] {
      ValueIsStored(comps[0].secrets, key);
      SecretIsStored(comps[1..], component, key);
      assert forall c :: c in comps <==> c == comps[0] || c in comps[1..];
    }
  }

  function ResolvedSecret(s: SecretAsk, component: string, current: seq<Component>): SecretAsk {
    if s.value.Some? then s else s.(value := StoredSecret(current, component, s.key))
  }

  function ResolvedSecrets(secrets: seq<SecretAsk>, component: string, current: seq<Component>): (r: seq<SecretAsk>)
    ensures |r| == |secrets| && forall i :: 0 <= i < |r| ==> r[i] == ResolvedSecret(secrets[i], component, current)
  {
    if secrets == [] then []
    else [ResolvedSecret(secrets[0], component, current)] + ResolvedSecrets(secrets[1..], component, current)
  }

  function ResolvedAsk(c: ComponentAsk, current: seq<Component>): ComponentAsk {
    c.(secrets := ResolvedSecrets(c.secrets, c.name, current))
  }

  predicate AllGiven(c: ComponentAsk) {
    forall s :: s in c.secrets ==> s.value.Some?
  }

  /** The request after the fill-in: every secret with its own value or the one stored under its component and key. */
  ghost predicate Resolves(asked: seq<ComponentAsk>, filled: seq<ComponentAsk>, current: seq<Component>) {
    |filled| == |asked| && forall i :: 0 <= i < |asked| ==> filled[i] == ResolvedAsk(asked[i], current)
  }

  function Filled(asked: seq<ComponentAsk>, current: seq<Component>): (filled: seq<ComponentAsk>)
    ensures Resolves(asked, filled, current)
  {
    if asked == [] then [] else [ResolvedAsk(asked[0], current)] + Filled(asked[1..], current)
  }

  /** Fills the request in place; it fails at the first secret that has nothing to inherit. */
  method ResolveSecrets(comps: array<ComponentAsk>, current: seq<Component>) returns (ok: bool)
    modifies comps
    ensures ok ==> comps[..] == Filled(old(comps[..]), current)
    ensures ok == forall c :: c in Filled(old(comps[..]), current) ==> AllGiven(c)
  {
    hide AllGiven, ResolvedAsk, Filled;
    ghost var target := Filled(comps[..], current);
    var i := 0;
    while i < comps.Length
      invariant 0 <= i <= comps.Length == |target|
      invariant forall k :: 0 <= k < i ==> comps[k] == target[k] && AllGiven(comps[k])
      invariant forall k :: i <= k < comps.Length ==> comps[k] == old(comps[k])
    {
      assert target[i] == ResolvedAsk(comps[i], current);
      var filled;
      ok, filled := ResolveComponent(comps[i], current);
      if !ok {
        assert target[i] in target;
        return;
      }
      comps[i] := filled;
      i := i + 1;
    }
    assert comps[..] == target;
    ok := true;
  }

  method ResolveComponent(c: ComponentAsk, current: seq<Component>) returns (ok: bool, filled: ComponentAsk)
    ensures ok == AllGiven(ResolvedAsk(c, current))
    ensures ok ==> filled == ResolvedAsk(c, current)
  {
    filled := c;
    var j := 0;
    while j < |c.secrets|
      invariant 0 <= j <= |c.secrets| == |filled.secrets|
      invariant filled == c.(secrets := filled.secrets)
      invariant forall k :: 0 <= k < j ==>
                  filled.secrets[k] == ResolvedSecret(c.secrets[k], c.name, current) && filled.secrets[k].value.Some?
      invariant forall k :: j <= k < |c.secrets| ==> filled.secrets[k] == c.secrets[k]
    {
      if filled.secrets[j].value.None? {
        var v := FindSecret(current, c.name, filled.secrets[j].key);
        if v.None? {
          assert ResolvedAsk(c, current).secrets[j] in ResolvedAsk(c, current).secrets;
          return false, filled;
        }
        filled := filled.(secrets := filled.secrets[j := filled.secrets[j].(value := v)]);
      }
      j := j + 1;
    }
    assert filled.secrets == ResolvedSecrets(c.secrets, c.name, current);
    ok := true;
  }

  method FindSecret(comps: seq<Component>, component: string, key: string) returns (value: Option<string>)
    ensures value == StoredSecret(comps, component, key)
  {
    var i := 0;
    while i < |comps|
      invariant 0 <= i <= |comps|
      invariant StoredSecret(comps, component, key) == StoredSecret(comps[i..], component, key)
    {
      assert comps[i..][0] == comps[i] && comps[i..][1..] == comps[i + 1..];
      if comps[i].name == component {
        var secrets := comps[i].secrets;
        var j := 0;
        while j < |secrets|
          invariant 0 <= j <= |secrets|
          invariant ValueOf(secrets, key) == ValueOf(secrets[j..], key)
        {
          assert secrets[j..][0] == secrets[j] && secrets[j..][1..] == secrets[j + 1..];
          if secrets[j].key == key {
            return Some(secrets[j].value);
          }
          j := j + 1;
        }
      }
      i := i + 1;
    }
    value := None;
  }

  // ---------------------------------------------------------------- what is stored

  function Secrets(asked: seq<SecretAsk>): (r: seq<EnvVar>)
    ensures |r| == |asked|
    ensures forall i :: 0 <= i < |r| ==>
              r[i] == EnvVar(asked[i].key, if asked[i].value.Some? then asked[i].value.value else "")
  {
    if asked == [] then []
    else [EnvVar(asked[0].key, if asked[0].value.Some? then asked[0].value.value else "")] + Secrets(asked[1..])
  }

  function FromAsk(c: ComponentAsk): Component {
    Component(c.name, c.cpu, c.memory, c.env, Secrets(c.secrets))
  }

  function FromAsks(comps: seq<ComponentAsk>): (r: seq<Component>)
    ensures |r| == |comps| && forall i :: 0 <= i < |r| ==> r[i] == FromAsk(comps[i])
  {
    if comps == [] then [] else [FromAsk(comps[0])] + FromAsks(comps[1..])
  }

  /** A stored component: a valid pair, and one namespace of well-formed keys with non-empty values. */
  predicate SoundComponent(c: Component) {
    && (c.cpu, c.memory) in CPU_MEMORY
    && |c.env| + |c.secrets| <= MAX_ENV
    && (forall e :: e in c.env + c.secrets ==> ValidEnv(e))
    && Distinct(EnvKeys(c.env) + EnvKeys(c.secrets))
  }

  predicate SoundApp(app: App) {
    && app.minScale <= app.maxScale
    && app.port !in RESERVED_PORTS
    && |app.components| == 1
    && SoundComponent(app.components[0])
  }

  lemma StoredIsSound(c: ComponentAsk)
    requires ValidAsk(c) && AllGiven(c)
    ensures SoundComponent(FromAsk(c))
  {
    var stored := FromAsk(c);
    assert EnvKeys(stored.secrets) == AskKeys(c.secrets);
    forall e | e in stored.env + stored.secrets ensures ValidEnv(e) {
      if e in stored.secrets {
        var i :| 0 <= i < |stored.secrets| && stored.secrets[i] == e;
        assert c.secrets[i] in c.secrets;
      }
    }
  }

  /** Values inherited from a sound component are themselves well formed. */
  lemma ResolvedIsValid(c: ComponentAsk, current: seq<Component>)
    requires ValidAsk(c) && AllGiven(ResolvedAsk(c, current))
    requires forall d :: d in current ==> SoundComponent(d)
    ensures ValidAsk(ResolvedAsk(c, current))
  {
    var r := ResolvedAsk(c, current);
    assert AskKeys(r.secrets) == AskKeys(c.secrets);
    forall i | 0 <= i < |r.secrets| ensures ValidSecret(r.secrets[i]) {
      assert r.secrets[i] in r.secrets && c.secrets[i] in c.secrets;
      hide Distinct, ValidKey, ValidValue;
      InheritedIsValid(c.secrets[i], c.name, current);
    }
  }

  lemma InheritedIsValid(s: SecretAsk, component: string, current: seq<Component>)
    requires ValidSecret(s) && ResolvedSecret(s, component, current).value.Some?
    requires forall d :: d in current ==> SoundComponent(d)
    ensures ValidSecret(ResolvedSecret(s, component, current))
  {
    hide Distinct, ValidKey, ValidValue;
    if s.value.None? {
      SecretIsStored(current, component, s.key);
      var x := EnvVar(s.key, ResolvedSecret(s, component, current).value.value);
      var d :| d in current && d.name == component && x in d.secrets;
      assert x in d.env + d.secrets;
    }
  }

  // ---------------------------------------------------------------- the merge

  /** How the handler passes a patch on: what is absent becomes 0, or -1 for the minimum. */
  function Encoded(req: PatchAsk, comps: seq<Component>): App {
    App("",
        if req.timeout.Some? then req.timeout.value else 0,
        if req.port.Some? then req.port.value else 0,
        if req.minScale.Some? then req.minScale.value else -1,
        if req.maxScale.Some? then req.maxScale.value else 0,
        if req.scaleTarget.Some? then req.scaleTarget.value else 0,
        comps)
  }

  /** How the store reads it back. */
  function MergeSentinels(current: App, patch: App): App {
    current.(timeout := if patch.timeout != 0 then patch.timeout else current.timeout,
             port := if patch.port != 0 then patch.port else current.port,
             minScale := if patch.minScale >= 0 then patch.minScale else current.minScale,
             maxScale := if patch.maxScale != 0 then patch.maxScale else current.maxScale,
             scaleTarget := if patch.scaleTarget != 0 then patch.scaleTarget else current.scaleTarget,
             components := if |patch.components| > 0 then patch.components else current.components)
  }

  function Or<T>(asked: Option<T>, current: T): T {
    if asked.Some? then asked.value else current
  }

  /** What a patch means: what is given replaces, the rest stays. */
  function MergeGiven(current: App, req: PatchAsk, comps: seq<Component>): App {
    App(current.name, Or(req.timeout, current.timeout), Or(req.port, current.port), Or(req.minScale, current.minScale),
        Or(req.maxScale, current.maxScale), Or(req.scaleTarget, current.scaleTarget),
        if |comps| > 0 then comps else current.components)
  }

  predicate Within(x: Option<int>, low: int, high: int) {
    x.Some? ==> low <= x.value <= high
  }

  /** The ranges the request schema admits. */
  predicate PatchInRange(req: PatchAsk) {
    && Within(req.timeout, 1, 300) && Within(req.port, 1, 65535)
    && Within(req.minScale, 0, 10) && Within(req.maxScale, 1, 10) && Within(req.scaleTarget, 50, 200)
  }

  /** No given value is taken for an absent one, unless that changes nothing. */
  predicate Unmistakable(current: App, req: PatchAsk) {
    && (req.timeout == Some(0) ==> current.timeout == 0)
    && (req.port == Some(0) ==> current.port == 0)
    && (req.minScale.Some? && req.minScale.value < 0 ==> current.minScale == req.minScale.value)
    && (req.maxScale == Some(0) ==> current.maxScale == 0)
    && (req.scaleTarget == Some(0) ==> current.scaleTarget == 0)
  }

  /** The two merges agree exactly when no sentinel is mistaken; the schema's ranges rule that out. */
  lemma MergesAgreeExactly(current: App, req: PatchAsk, comps: seq<Component>)
    ensures MergeSentinels(current, Encoded(req, comps)) == MergeGiven(current, req, comps) <==> Unmistakable(current, req)
    ensures PatchInRange(req) ==> Unmistakable(current, req)
  {
  }

  // ---------------------------------------------------------------- requests

  predicate CreateInRange(req: CreateAsk) {
    && 1 <= req.timeout <= 300 && 1 <= req.port <= 65535 && 0 <= req.minScale <= 10 && 1 <= req.maxScale <= 10
    && (forall c :: c in req.components ==> AllGiven(c))
  }

  method ValidateApplication(req: CreateAsk) returns (ok: bool)
    ensures ok == (req.port !in RESERVED_PORTS && req.minScale <= req.maxScale
                   && |req.components| == 1 && ValidAsk(req.components[0]))
  {
    if req.port in RESERVED_PORTS || req.minScale > req.maxScale || |req.components| != 1 {
      return false;
    }
    ok := ValidateComponents(req.components);
    assert req.components[0] in req.components;
  }

  predicate PatchAccepted(req: PatchAsk, current: App) {
    && Or(req.port, current.port) !in RESERVED_PORTS
    && Or(req.minScale, current.minScale) <= Or(req.maxScale, current.maxScale)
    && |req.components| <= 1
    && forall c :: c in req.components ==> ValidAsk(c)
  }

  method ValidatePatch(req: PatchAsk, current: App) returns (ok: bool)
    ensures ok == PatchAccepted(req, current)
  {
    var port := current.port;
    if req.port.Some? {
      port := req.port.value;
    }
    if port in RESERVED_PORTS {
      return false;
    }
    var minS := current.minScale;
    if req.minScale.Some? {
      minS := req.minScale.value;
    }
    var maxS := current.maxScale;
    if req.maxScale.Some? {
      maxS := req.maxScale.value;
    }
    if minS > maxS || |req.components| > 1 {
      return false;
    }
    ok := true;
    if |req.components| > 0 {
      ok := ValidateComponents(req.components);
    }
  }

  function Created(req: CreateAsk): App {
    App(req.name, req.timeout, req.port, req.minScale, req.maxScale,
        if req.scaleTarget == 0 then 100 else req.scaleTarget, FromAsks(req.components))
  }

  lemma CreatedIsSound(req: CreateAsk)
    requires CreateInRange(req) && req.port !in RESERVED_PORTS && req.minScale <= req.maxScale
    requires |req.components| == 1 && ValidAsk(req.components[0])
    ensures SoundApp(Created(req))
  {
    assert req.components[0] in req.components;
    StoredIsSound(req.components[0]);
  }

  /** A patch that passes its checks turns a sound application into a sound one. */
  lemma PatchedIsSound(current: App, req: PatchAsk, filled: seq<ComponentAsk>)
    requires SoundApp(current) && PatchInRange(req) && PatchAccepted(req, current)
    requires Resolves(req.components, filled, current.components)
    requires forall c :: c in filled ==> AllGiven(c)
    ensures SoundApp(MergeSentinels(current, Encoded(req, FromAsks(filled))))
  {
    hide SoundComponent, ValidAsk, AllGiven, MergeSentinels, Encoded, ResolvedAsk;
    MergesAgreeExactly(current, req, FromAsks(filled));
    if |filled| > 0 {
      assert req.components[0] in req.components && filled[0] in filled;
      forall d | d in current.components ensures SoundComponent(d) {
        assert d == current.components[0];
      }
      ResolvedIsValid(req.components[0], current.components);
      StoredIsSound(filled[0]);
    }
  }
}
