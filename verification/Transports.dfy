/**
 The per-service cache of upstream connections, keyed by a printed fingerprint of
 the settings: it is current because the fingerprint can be read back only one way.
 */
module Transports {
  import opened Prelude
  import opened Decimal

  datatype Settings = Settings(protocol: string, connectTimeout: int, writeTimeout: int, readTimeout: int, retries: int)

  /** What a service asks for: five retries unless it says otherwise. */
  datatype Asked = Asked(protocol: string, connectTimeout: int, writeTimeout: int, readTimeout: int, retries: Option<int>)

  function SettingsOf(a: Asked): Settings {
    Settings(a.protocol, a.connectTimeout, a.writeTimeout, a.readTimeout, if a.retries.Some? then a.retries.value else 5)
  }

  function Barred(s: string, n: int): string {
    s + "|" + Integer(n)
  }

  function Fingerprint(s: Settings): string {
    Barred(Barred(Barred(Barred(s.protocol, s.connectTimeout), s.writeTimeout), s.readTimeout), s.retries)
  }

  /** A bar further on lies in what follows the first. */
  lemma BarBehind(a: string, x: string, b: string, y: string)
    requires a + "|" + x == b + "|" + y && |a| < |b|
    ensures '|' in x
  {
    assert x[|b| - |a| - 1] == (a + "|" + x)[|b|] == (b + "|" + y)[|b|];
  }

  /** A number holds no bar, so what precedes the last bar and the number after it are determined. */
  lemma BarredInjective(a: string, m: int, b: string, n: int)
    requires Barred(a, m) == Barred(b, n)
    ensures a == b && m == n
  {
    var x, y := Integer(m), Integer(n);
    IntegerInjective(m, n);
    hide Integer;
    if |a| < |b| {
      BarBehind(a, x, b, y);
      assert false;
    }
    if |b| < |a| {
      BarBehind(b, y, a, x);
      assert false;
    }
    assert a == (a + "|" + x)[..|a|] && b == (b + "|" + y)[..|b|];
    assert x == (a + "|" + x)[|a| + 1..] && y == (b + "|" + y)[|b| + 1..];
  }

  lemma FingerprintInjective(s: Settings, t: Settings)
    requires Fingerprint(s) == Fingerprint(t)
    ensures s == t
  {
    var s1, t1 := Barred(s.protocol, s.connectTimeout), Barred(t.protocol, t.connectTimeout);
    var s2, t2 := Barred(s1, s.writeTimeout), Barred(t1, t.writeTimeout);
    var s3, t3 := Barred(s2, s.readTimeout), Barred(t2, t.readTimeout);
    hide Barred;
    BarredInjective(s3, s.retries, t3, t.retries);
    BarredInjective(s2, s.readTimeout, t2, t.readTimeout);
    BarredInjective(s1, s.writeTimeout, t1, t.writeTimeout);
    BarredInjective(s.protocol, s.connectTimeout, t.protocol, t.connectTimeout);
  }

  datatype Transport = Transport(number: nat, settings: Settings)

  datatype Cached = Cached(fingerprint: string, transport: Transport)

  class TransportCache {
    var transports: map<string, Cached>
    var built: nat

    ghost predicate Valid()
      reads this
    {
      forall id :: id in transports ==> transports[id].fingerprint == Fingerprint(transports[id].transport.settings)
    }

    constructor ()
      ensures Valid() && transports == map[] && built == 0
    {
      transports, built := map[], 0;
    }

    /** A service always gets a transport of its current settings, and the one it had if they have not changed. */
    method TransportFor(id: string, asked: Asked) returns (t: Transport)
      requires Valid()
      modifies this
      ensures Valid() && t.settings == SettingsOf(asked)
      ensures t.settings.protocol == asked.protocol && t.settings.connectTimeout == asked.connectTimeout
      ensures t.settings.writeTimeout == asked.writeTimeout && t.settings.readTimeout == asked.readTimeout
      ensures t.settings.retries == match asked.retries case Some(n) => n case None => 5
      ensures id in transports && transports[id].transport == t
      ensures if id in old(transports) && old(transports)[id].transport.settings == SettingsOf(asked)
              then t == old(transports)[id].transport && transports == old(transports) && built == old(built)
              else t.number == old(built) && built == old(built) + 1
      ensures forall k :: k != id ==> (k in transports <==> k in old(transports))
                                      && (k in transports ==> transports[k] == old(transports)[k])
    {
      var retries := 5;
      if asked.retries.Some? {
        retries := asked.retries.value;
      }
      var settings := Settings(asked.protocol, asked.connectTimeout, asked.writeTimeout, asked.readTimeout, retries);
      var fp := Fingerprint(settings);
      if id in transports && transports[id].fingerprint == fp {
        FingerprintInjective(settings, transports[id].transport.settings);
        return transports[id].transport;
      }
      t := Transport(built, settings);
      built := built + 1;
      transports := transports[id := Cached(fp, t)];
    }
  }
}
