/**
 The order of the data plane's checks, the client-address lists, and the reading
 of a signature header's parameters.
 */
module Authorize {
  import opened Prelude
  import opened GatewayState
  import opened GatewayAcl
  import opened Strings

  // ---------------------------------------------------------------- the decision

  /** A deny list lets in who is not on it, any other list who is. */
  predicate Admits(r: Restriction, ip: string) {
    if r.restrictedBy == "denyIps" then ip !in r.ips else ip in r.ips
  }

  /** What the authentication scheme came to: refused, or passed with a stored consumer or none. */
  datatype Authentication = Refused | Passed(consumer: Option<User>)

  datatype Decision = Proceed | DeniedAddress | DeniedIdentity | DeniedList(verdict: Verdict)

  method AllowIP(r: Option<Restriction>, ip: string) returns (ok: bool)
    ensures ok == (r.Some? ==> Admits(r.value, ip))
    ensures r.Some? && r.value.restrictedBy == "denyIps" ==> (ok <==> ip !in r.value.ips)
    ensures r.Some? && r.value.restrictedBy != "denyIps" ==> (ok <==> ip in r.value.ips)
  {
    if r.None? {
      return true;
    }
    var listed := false;
    var i := 0;
    while i < |r.value.ips| && !listed
      invariant 0 <= i <= |r.value.ips|
      invariant listed <==> ip in r.value.ips[..i]
    {
      assert r.value.ips[..i + 1] == r.value.ips[..i] + [r.value.ips[i]];
      listed := r.value.ips[i] == ip;
      i := i + 1;
    }
    assert listed <==> ip in r.value.ips by {
      if !listed {
        assert r.value.ips[..i] == r.value.ips;
      }
    }
    ok := if r.value.restrictedBy == "denyIps" then !listed else listed;
  }

  /** The address list that counts: the route's, and the consumer's only where the route has none. */
  function Effective(routeList: Option<Restriction>, consumer: Option<User>): Option<Restriction> {
    if routeList.Some? then routeList else if consumer.Some? then consumer.value.restriction else None
  }

  /**
   A request proceeds exactly when it is authenticated, the address list that
   counts admits it, and the allow-list passes it; and the first check to fail
   in the order address, identity, consumer address, list decides the answer.
   */
  method Decide(routeList: Option<Restriction>, ip: string, auth: Authentication, acl: Option<Acl>, service: Service)
    returns (d: Decision)
    ensures d == Proceed <==>
            && auth.Passed?
            && (Effective(routeList, auth.consumer).Some? ==> Admits(Effective(routeList, auth.consumer).value, ip))
            && Verdicted(acl, service, auth.consumer) == Pass
    ensures d == DeniedAddress <==>
            || (routeList.Some? && !Admits(routeList.value, ip))
            || (auth.Passed? && routeList.None? && auth.consumer.Some? && auth.consumer.value.restriction.Some?
                && !Admits(auth.consumer.value.restriction.value, ip))
    ensures d == DeniedIdentity <==> auth.Refused? && (routeList.Some? ==> Admits(routeList.value, ip))
    ensures d.DeniedList? ==> d.verdict == Verdicted(acl, service, auth.consumer) != Pass
  {
    var ok := AllowIP(routeList, ip);
    if !ok {
      return DeniedAddress;
    }
    if auth.Refused? {
      return DeniedIdentity;
    }
    if auth.consumer.Some? && routeList.None? {
      ok := AllowIP(auth.consumer.value.restriction, ip);
      if !ok {
        return DeniedAddress;
      }
    }
    var v := CheckAcl(acl, service, auth.consumer);
    d := if v == Pass then Proceed else DeniedList(v);
  }

  // ---------------------------------------------------------------- signature parameters

  /** White space as Unicode has it. */
  predicate IsSpace(c: char) {
    || c == ' ' || '\t' <= c <= '\r'
    || c == '\U{85}' || c == '\U{A0}' || c == '\U{1680}' || '\U{2000}' <= c <= '\U{200A}'
    || c == '\U{2028}' || c == '\U{2029}' || c == '\U{202F}' || c == '\U{205F}' || c == '\U{3000}'
  }

  function TrimLeft(s: string, drop: char -> bool): string {
    if s != "" && drop(s[0]) then TrimLeft(s[1..], drop) else s
  }

  function TrimRight(s: string, drop: char -> bool): string {
    if s != "" && drop(Last(s)) then TrimRight(Front(s), drop) else s
  }

  function Trim(s: string, drop: char -> bool): string {
    TrimRight(TrimLeft(s, drop), drop)
  }

  predicate IsQuote(c: char) {
    c == '"'
  }

  /** One part gives a parameter if it has an equals sign; the value loses its quotes. */
  function Entry(part: string): Option<(string, string)> {
    var t := Trim(part, IsSpace);
    var k := IndexOf(t, '=');
    if k == |t| then None else Some((t[..k], Trim(t[k + 1..], IsQuote)))
  }

  lemma {:induction false} TrimKeeps(s: string, c: char, drop: char -> bool)
    requires !drop(c)
    ensures c in TrimLeft(s, drop) <==> c in s
    ensures c in TrimRight(s, drop) <==> c in s
    decreases |s|
  {
    if s != "" {
      TrimKeeps(s[1..], c, drop);
      TrimKeeps(Front(s), c, drop);
      assert s == [s[0]] + s[1..] && s == Front(s) + [Last(s)];
    }
  }

  /** A part gives a parameter exactly when it has an equals sign. */
  lemma EntryExactly(part: string)
    ensures Entry(part).Some? <==> '=' in part
  {
    TrimKeeps(part, '=', IsSpace);
    TrimKeeps(TrimLeft(part, IsSpace), '=', IsSpace);
    hide TrimLeft, TrimRight, IsSpace;
  }

  function Entered(params: map<string, string>, part: string): map<string, string> {
    var e := Entry(part);
    if e.None? then params else params[e.value.0 := e.value.1]
  }

  function Params(parts: seq<string>): map<string, string> {
    if parts == [] then map[] else Entered(Params(Front(parts)), Last(parts))
  }

  method ParseHmacParams(s: string) returns (params: map<string, string>)
    ensures params == Params(Split(s, ','))
  {
    var parts := Split(s, ',');
    params := map[];
    var i := 0;
    while i < |parts|
      invariant 0 <= i <= |parts| && params == Params(parts[..i])
    {
      assert Front(parts[..i + 1]) == parts[..i];
      var e := Entry(parts[i]);
      if e.Some? {
        params := params[e.value.0 := e.value.1];
      }
      i := i + 1;
    }
    assert parts[..i] == parts;
  }

  // The header as a client writes it.

  /** A parameter as it stands between two commas: with white space around it, its value in quotes or not. */
  datatype Param = Param(before: string, key: string, value: string, quoted: bool, after: string)

  predicate Blank(s: string) {
    forall c :: c in s ==> IsSpace(c)
  }

  /**
   Keys without separators or leading space, values without commas and quotes,
   nor a space at the end of a bare one: base64 text with its padding is one.
   */
  predicate Writable(p: Param) {
    && Blank(p.before) && Blank(p.after)
    && (p.key != "" ==> !IsSpace(p.key[0])) && '=' !in p.key && ',' !in p.key
    && ',' !in p.value && '"' !in p.value
    && (!p.quoted && p.value != "" ==> !IsSpace(Last(p.value)))
  }

  function Quoted(p: Param): string {
    if p.quoted then "\"" + p.value + "\"" else p.value
  }

  function Core(p: Param): string {
    p.key + ['='] + Quoted(p)
  }

  function Written(p: Param): string {
    p.before + Core(p) + p.after
  }

  function Texts(ps: seq<Param>): (ts: seq<string>)
    ensures |ts| == |ps| && forall i :: 0 <= i < |ps| ==> ts[i] == Written(ps[i])
  {
    if ps == [] then [] else [Written(ps[0])] + Texts(ps[1..])
  }

  /** The parameters as they were meant: a later one of the same key wins. */
  function Meant(ps: seq<Param>): map<string, string> {
    if ps == [] then map[] else Meant(Front(ps))[Last(ps).key := Last(ps).value]
  }

  lemma {:induction false} TrimmedLeft(before: string, s: string, drop: char -> bool)
    requires (forall c :: c in before ==> drop(c)) && s != "" && !drop(s[0])
    ensures TrimLeft(before + s, drop) == s
    decreases |before|
  {
    if before == "" {
      assert before + s == s;
    } else {
      assert before[0] in before && (before + s)[1..] == before[1..] + s;
      TrimmedLeft(before[1..], s, drop);
    }
  }

  lemma {:induction false} TrimmedRight(s: string, after: string, drop: char -> bool)
    requires (forall c :: c in after ==> drop(c)) && (s != "" ==> !drop(Last(s)))
    ensures TrimRight(s + after, drop) == s
    decreases |after|
  {
    if after == "" {
      assert s + after == s;
    } else {
      assert Last(after) in after && Last(s + after) == Last(after) && Front(s + after) == s + Front(after);
      TrimmedRight(s, Front(after), drop);
    }
  }

  lemma Trimmed(before: string, s: string, after: string, drop: char -> bool)
    requires (forall c :: c in before ==> drop(c)) && (forall c :: c in after ==> drop(c))
    requires s != "" && !drop(s[0]) && !drop(Last(s))
    ensures Trim(before + s + after, drop) == s
  {
    assert before + s + after == before + (s + after);
    TrimmedLeft(before, s + after, drop);
    TrimmedRight(s, after, drop);
  }

  lemma Unquoted(p: Param)
    requires '"' !in p.value
    ensures Trim(Quoted(p), IsQuote) == p.value
  {
    var v := p.value;
    if v == "" {
      TrimmedRight("", "\"", IsQuote);
      assert TrimLeft("\"\"", IsQuote) == TrimLeft("\"", IsQuote) == "";
    } else {
      assert v[0] in v && Last(v) in v;
      Trimmed("\"", v, "\"", IsQuote);
      Trimmed("", v, "", IsQuote);
      assert "" + v + "" == v;
    }
  }

  lemma WrittenIsRead(p: Param)
    requires Writable(p)
    ensures Entry(Written(p)) == Some((p.key, p.value))
  {
    var t, q := Core(p), Quoted(p);
    assert t[0] == if p.key == "" then '=' else p.key[0];
    assert Last(t) == if p.quoted then '"' else if p.value == "" then '=' else Last(p.value);
    Trimmed(p.before, t, p.after, IsSpace);
    IndexOfConcat(p.key, '=', q);
    assert t[..|p.key|] == p.key && t[|p.key| + 1..] == q;
    Unquoted(p);
    hide Trim, IsSpace;
  }

  lemma WrittenIsOnePart(p: Param)
    requires Writable(p)
    ensures ',' !in Written(p)
  {
    assert !IsSpace(',') && ',' !in p.before && ',' !in p.after && ',' !in Quoted(p);
  }

  lemma {:induction false} TextsAreMeant(ps: seq<Param>)
    requires forall p :: p in ps ==> Writable(p)
    ensures Params(Texts(ps)) == Meant(ps)
  {
    if ps != [] {
      TextsAreMeant(Front(ps));
      assert Front(Texts(ps)) == Texts(Front(ps));
      assert Last(Texts(ps)) == Written(Last(ps));
      WrittenIsRead(Last(ps));
      hide Entry, Written;
    }
  }

  /** Reading back what was written gives the parameters as meant, whatever white space is around them. */
  lemma ParamsRoundTrip(ps: seq<Param>)
    requires forall p :: p in ps ==> Writable(p)
    ensures Params(Split(Join(Texts(ps), ','), ',')) == Meant(ps)
  {
    if ps == [] {
      assert Params([""]) == Entered(Params([]), "") == map[];
    } else {
      forall t | t in Texts(ps) ensures ',' !in t {
        var i :| 0 <= i < |ps| && Texts(ps)[i] == t;
        WrittenIsOnePart(ps[i]);
      }
      JoinSplits(Texts(ps), ',');
      TextsAreMeant(ps);
    }
  }
}
