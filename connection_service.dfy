/**
 * The Aurora DSQL connection service: a cache holding one IAM authentication
 * token and its expiry, refreshed under a lock shortly before the token
 * expires, and the connection string built around that token.
 *
 * Time is a count of DateTime ticks (100 ns each); DateTime.MinValue is tick 0.
 * The clock and the token issuer are inputs: each call carries the clock
 * readings it makes and the issuer it would ask.
 */
module AuroraDsqlConnection {
  import opened Wrappers

  const TicksPerMinute: int := 600_000_000
  const MinValue: int := 0
  /** A cached token stops being used this long before it expires. */
  const SafetyMargin: int := 5 * TicksPerMinute
  /** A newly generated token is recorded as expiring this long after it was stored. */
  const TokenLifetime: int := 60 * TicksPerMinute

  datatype Error =
    | EndpointNotConfigured   // "Aurora DSQL cluster endpoint not configured"
    | TokenGenerationFailed   // "Failed to generate Aurora DSQL authentication token"

  /** The settings under "AuroraDSQL"; None is a key that is not configured. */
  datatype Config = Config(clusterEndpoint: Option<string>, region: Option<string>,
                           database: Option<string>, username: Option<string>)

  /** The configured region, or "us-east-1" when none is configured. */
  function Region(c: Config): (r: string)
    ensures c.region.Some? ==> r == c.region.value
    ensures c.region.None? ==> r == "us-east-1"
  {
    c.region.GetOr("us-east-1")
  }

  /** The configured database, or "postgres" when none is configured. */
  function Database(c: Config): (r: string)
    ensures c.database.Some? ==> r == c.database.value
    ensures c.database.None? ==> r == "postgres"
  {
    c.database.GetOr("postgres")
  }

  /** The configured username, or "admin" when none is configured. */
  function Username(c: Config): (r: string)
    ensures c.username.Some? ==> r == c.username.value
    ensures c.username.None? ==> r == "admin"
  {
    c.username.GetOr("admin")
  }

  // ---------------------------------------------------------------------------
  // The token cache as a function of its state
  // ---------------------------------------------------------------------------

  /** The two fields of the cache. */
  datatype TokenState = TokenState(cachedToken: Option<string>, tokenExpiry: int)

  /** A new service holds no token and an expiry of DateTime.MinValue. */
  const Initial := TokenState(None, MinValue)

  /** The test made before and after taking the lock. */
  predicate Usable(s: TokenState, now: int) {
    s.cachedToken.Some? && now < s.tokenExpiry - SafetyMargin
  }

  /**
   * What one call to the cache sees of the world: the clock at the lock-free
   * check, at the re-check under the lock and when the new expiry is computed,
   * and the issuer, which yields a token for (endpoint, region) or fails.
   */
  datatype Call = Call(checkedAt: int, recheckedAt: int, issuedAt: int,
                       issuer: (string, string) -> Option<string>)

  /** What one call returns, the state it leaves and whether it asked the issuer. */
  datatype TokenStep = TokenStep(result: Result<string, Error>, state: TokenState, issuerCalled: bool)

  /** One call of the token cache: cached token, re-checked cached token, or a refresh. */
  function GetOrRefresh(s: TokenState, endpoint: string, region: string, c: Call): (r: TokenStep)
    // the issuer is asked exactly when neither check finds a usable token
    ensures r.issuerCalled <==> !Usable(s, c.checkedAt) && !Usable(s, c.recheckedAt)
    // without the issuer, the cached token is returned and nothing changes
    ensures !r.issuerCalled ==> r.result == Success(s.cachedToken.value) && r.state == s
    // a failed generation surfaces as an error and leaves the old token and expiry in place
    ensures r.issuerCalled && c.issuer(endpoint, region).None? ==>
              r.result == Failure(TokenGenerationFailed) && r.state == s
    // a successful generation is returned, cached, and expires one lifetime after it was stored
    ensures r.issuerCalled && c.issuer(endpoint, region).Some? ==>
              var t := c.issuer(endpoint, region).value;
              r.result == Success(t) && r.state == TokenState(Some(t), c.issuedAt + TokenLifetime)
  {
    if Usable(s, c.checkedAt) then TokenStep(Success(s.cachedToken.value), s, false)
    else if Usable(s, c.recheckedAt) then TokenStep(Success(s.cachedToken.value), s, false)
    else match c.issuer(endpoint, region)
      case None => TokenStep(Failure(TokenGenerationFailed), s, true)
      case Some(t) => TokenStep(Success(t), TokenState(Some(t), c.issuedAt + TokenLifetime), true)
  }

  /** A new service asks the issuer on its first call, whatever the clock says. */
  lemma FirstCallCallsIssuer(endpoint: string, region: string, c: Call)
    ensures GetOrRefresh(Initial, endpoint, region, c).issuerCalled
  {
  }

  /**
   * The boundary set by the strict comparison: a token stored at `t0` is
   * reused up to the last tick before minute 55 and refreshed from minute 55.
   */
  lemma RefreshBoundary(endpoint: string, region: string, t0: int,
                        issuer: (string, string) -> Option<string>)
    requires issuer(endpoint, region).Some?
    ensures var s := GetOrRefresh(Initial, endpoint, region, Call(t0, t0, t0, issuer)).state;
            var at := (t: int) => Call(t, t, t, issuer);
            && !GetOrRefresh(s, endpoint, region, at(t0 + 54 * TicksPerMinute)).issuerCalled
            && !GetOrRefresh(s, endpoint, region, at(t0 + 55 * TicksPerMinute - 1)).issuerCalled
            && GetOrRefresh(s, endpoint, region, at(t0 + 55 * TicksPerMinute)).issuerCalled
  {
  }

  /** How many of a sequence of calls ask the issuer. */
  function IssuerCalls(s: TokenState, endpoint: string, region: string, calls: seq<Call>): nat
    decreases |calls|
  {
    if calls == [] then 0
    else
      var step := GetOrRefresh(s, endpoint, region, calls[0]);
      (if step.issuerCalled then 1 else 0) + IssuerCalls(step.state, endpoint, region, calls[1..])
  }

  /** Every call checks the cache before `start` plus the usable part of a lifetime, and stores no earlier than `start`. */
  predicate WithinWindow(calls: seq<Call>, start: int) {
    forall i :: 0 <= i < |calls| ==>
      start <= calls[i].issuedAt && calls[i].checkedAt < start + TokenLifetime - SafetyMargin
  }

  /** Every call's issuer would produce a token. */
  predicate IssuerAvailable(calls: seq<Call>, endpoint: string, region: string) {
    forall i :: 0 <= i < |calls| ==> calls[i].issuer(endpoint, region).Some?
  }

  /** While the cached token outlives the window, no call of the window asks the issuer. */
  lemma {:induction false} NoIssuerCallsWhileUsable(s: TokenState, endpoint: string, region: string,
                                                    calls: seq<Call>, start: int)
    requires s.cachedToken.Some? && start + TokenLifetime <= s.tokenExpiry
    requires WithinWindow(calls, start)
    ensures IssuerCalls(s, endpoint, region, calls) == 0
    decreases |calls|
  {
    if calls != [] {
      assert Usable(s, calls[0].checkedAt);
      assert WithinWindow(calls[1..], start) by {
        forall i | 0 <= i < |calls[1..]| ensures calls[1..][i] == calls[i + 1] { }
      }
      NoIssuerCallsWhileUsable(s, endpoint, region, calls[1..], start);
    }
  }

  /**
   * However many calls arrive within one usable lifetime of a token, the issuer
   * is asked at most once, provided it does not fail.
   */
  lemma {:induction false} AtMostOneRefreshPerWindow(s: TokenState, endpoint: string, region: string,
                                                     calls: seq<Call>, start: int)
    requires WithinWindow(calls, start)
    requires IssuerAvailable(calls, endpoint, region)
    ensures IssuerCalls(s, endpoint, region, calls) <= 1
    decreases |calls|
  {
    if calls != [] {
      var step := GetOrRefresh(s, endpoint, region, calls[0]);
      assert WithinWindow(calls[1..], start) by {
        forall i | 0 <= i < |calls[1..]| ensures calls[1..][i] == calls[i + 1] { }
      }
      if step.issuerCalled {
        assert calls[0].issuer(endpoint, region).Some?;
        NoIssuerCallsWhileUsable(step.state, endpoint, region, calls[1..], start);
      } else {
        assert IssuerAvailable(calls[1..], endpoint, region) by {
          forall i | 0 <= i < |calls[1..]| ensures calls[1..][i] == calls[i + 1] { }
        }
        AtMostOneRefreshPerWindow(step.state, endpoint, region, calls[1..], start);
      }
    }
  }

  // ---------------------------------------------------------------------------
  // The connection string
  // ---------------------------------------------------------------------------

  /**
   * The settings of the connection string, in the order they are written. No
   * key holds a separator; no value does when no ingredient does.
   */
  function ConnectionSettings(endpoint: string, database: string, username: string, token: string)
    : (r: seq<(string, string)>)
    ensures |r| == 9
    ensures forall k :: 0 <= k < |r| ==> ';' !in r[k].0 && '=' !in r[k].0
    ensures ';' !in endpoint && ';' !in database && ';' !in username && ';' !in token ==>
              forall k :: 0 <= k < |r| ==> ';' !in r[k].1
  {
    [("Host", endpoint), ("Port", "5432"), ("Database", database), ("Username", username),
     ("Password", token), ("SSL Mode", "Require"), ("Trust Server Certificate", "true"),
     ("Timeout", "30"), ("Command Timeout", "30")]
  }

  /** One setting written as `key=value;`. */
  function Entry(setting: (string, string)): string {
    setting.0 + "=" + setting.1 + ";"
  }

  /** The settings written one after the other. */
  function Render(settings: seq<(string, string)>): string
    decreases |settings|
  {
    if settings == [] then "" else Entry(settings[0]) + Render(settings[1..])
  }

  /**
   * The connection string. When no ingredient holds a ';', it reads back as
   * exactly its nine settings: the endpoint, database, username and token
   * cannot be confused with one another or with the fixed settings.
   */
  function ConnectionString(endpoint: string, database: string, username: string, token: string): (r: string)
    ensures ';' !in endpoint && ';' !in database && ';' !in username && ';' !in token ==>
              ParseSettings(r) == Some(ConnectionSettings(endpoint, database, username, token))
  {
    var settings := ConnectionSettings(endpoint, database, username, token);
    if ';' !in endpoint && ';' !in database && ';' !in username && ';' !in token then
      RenderParses(settings);
      Render(settings)
    else
      Render(settings)
  }

  // The next four lemmas take the nine settings apart one entry at a time and
  // regroup the concatenation, so that the shape of the connection string is
  // proved with literals in one small step instead of one unfolding of all of Render.

  lemma RenderCons(setting: (string, string), rest: seq<(string, string)>)
    ensures Render([setting] + rest) == Entry(setting) + Render(rest)
  {
    assert ([setting] + rest)[1..] == rest;
  }

  lemma FixedEntries()
    ensures Entry(("Port", "5432")) == "Port=5432;"
    ensures Entry(("SSL Mode", "Require")) == "SSL Mode=Require;"
    ensures Entry(("Trust Server Certificate", "true")) == "Trust Server Certificate=true;"
    ensures Entry(("Timeout", "30")) == "Timeout=30;"
    ensures Entry(("Command Timeout", "30")) == "Command Timeout=30;"
  {
  }

  lemma Regroup(p1: string, p2: string, p3: string, p4: string, p5: string, p6: string, p7: string,
                p8: string, p9: string, p10: string, p11: string, p12: string, p13: string,
                p14: string, p15: string, p16: string, p17: string)
    ensures (p1 + p2 + p3) + (p4 + ((p5 + p6 + p7) + ((p8 + p9 + p10) + ((p11 + p12 + p13)
              + (p14 + (p15 + (p16 + (p17 + ""))))))))
         == p1 + p2 + p3 + p4 + p5 + p6 + p7 + p8 + p9 + p10 + p11 + p12 + p13 + p14 + p15 + p16 + p17
  {
  }

  /** Nine settings are written entry after entry. */
  lemma RenderNine(s1: (string, string), s2: (string, string), s3: (string, string),
                   s4: (string, string), s5: (string, string), s6: (string, string),
                   s7: (string, string), s8: (string, string), s9: (string, string))
    ensures Render([s1, s2, s3, s4, s5, s6, s7, s8, s9])
         == Entry(s1) + (Entry(s2) + (Entry(s3) + (Entry(s4) + (Entry(s5) + (Entry(s6)
            + (Entry(s7) + (Entry(s8) + (Entry(s9) + ""))))))))
  {
    RenderCons(s9, []);
    RenderCons(s8, [s9]);
    RenderCons(s7, [s8, s9]);
    RenderCons(s6, [s7, s8, s9]);
    RenderCons(s5, [s6, s7, s8, s9]);
    RenderCons(s4, [s5, s6, s7, s8, s9]);
    RenderCons(s3, [s4, s5, s6, s7, s8, s9]);
    RenderCons(s2, [s3, s4, s5, s6, s7, s8, s9]);
    RenderCons(s1, [s2, s3, s4, s5, s6, s7, s8, s9]);
    assert [s1] + [s2, s3, s4, s5, s6, s7, s8, s9] == [s1, s2, s3, s4, s5, s6, s7, s8, s9];
  }

  /** The connection string, piece by piece in the order the service appends them. */
  lemma ConnectionStringShape(endpoint: string, database: string, username: string, token: string)
    ensures ConnectionString(endpoint, database, username, token)
         == "Host=" + endpoint + ";" + "Port=5432;" + "Database=" + database + ";"
            + "Username=" + username + ";" + "Password=" + token + ";" + "SSL Mode=Require;"
            + "Trust Server Certificate=true;" + "Timeout=30;" + "Command Timeout=30;"
  {
    RenderNine(("Host", endpoint), ("Port", "5432"), ("Database", database), ("Username", username),
               ("Password", token), ("SSL Mode", "Require"), ("Trust Server Certificate", "true"),
               ("Timeout", "30"), ("Command Timeout", "30"));
    FixedEntries();
    assert Entry(("Host", endpoint)) == "Host=" + endpoint + ";";
    assert Entry(("Database", database)) == "Database=" + database + ";";
    assert Entry(("Username", username)) == "Username=" + username + ";";
    assert Entry(("Password", token)) == "Password=" + token + ";";
    Regroup("Host=", endpoint, ";", "Port=5432;", "Database=", database, ";", "Username=", username, ";",
            "Password=", token, ";", "SSL Mode=Require;", "Trust Server Certificate=true;",
            "Timeout=30;", "Command Timeout=30;");
  }

  /** The index of the first `c` in `s`, or |s| when there is none. */
  function IndexOf(s: string, c: char): (i: nat)
    ensures i <= |s|
    ensures i < |s| ==> s[i] == c
    ensures forall j :: 0 <= j < i ==> s[j] != c
    decreases |s|
  {
    if s == [] || s[0] == c then 0 else 1 + IndexOf(s[1..], c)
  }

  /** Reads a string of `key=value;` settings back; None when it is not of that form. */
  function ParseSettings(s: string): Option<seq<(string, string)>>
    decreases |s|
  {
    if s == [] then Some([])
    else
      var i := IndexOf(s, ';');
      if i == |s| then None
      else
        var segment := s[..i];
        var j := IndexOf(segment, '=');
        if j == |segment| then None
        else match ParseSettings(s[i + 1..])
          case None => None
          case Some(rest) => Some([(segment[..j], segment[j + 1..])] + rest)
  }

  lemma IndexOfAfter(prefix: string, c: char, rest: string)
    requires c !in prefix
    ensures IndexOf(prefix + [c] + rest, c) == |prefix|
  {
    var s := prefix + [c] + rest;
    assert s[|prefix|] == c;
    assert forall j :: 0 <= j < |prefix| ==> s[j] == prefix[j];
  }

  /** One `key=value;` entry in front of more text reads back as that setting followed by what the text reads as. */
  lemma ParseEntry(key: string, value: string, tail: string)
    requires ';' !in key && '=' !in key && ';' !in value
    ensures ParseSettings(Entry((key, value)) + tail)
         == match ParseSettings(tail)
            case None => None
            case Some(rest) => Some([(key, value)] + rest)
  {
    var head := key + "=" + value;
    var s := Entry((key, value)) + tail;
    assert s == head + [';'] + tail;
    assert ';' !in head by {
      forall k | 0 <= k < |head| ensures head[k] != ';' {
        if k < |key| { assert head[k] == key[k]; }
        else if k > |key| { assert head[k] == value[k - |key| - 1]; }
      }
    }
    IndexOfAfter(head, ';', tail);
    assert s[..|head|] == head;
    assert s[|head| + 1..] == tail;
    IndexOfAfter(key, '=', value);
    assert key + "=" + value == key + ['='] + value;
    assert head[..|key|] == key;
    assert head[|key| + 1..] == value;
  }

  /** Settings whose keys hold neither ';' nor '=' and whose values hold no ';' read back as written. */
  lemma {:induction false} RenderParses(settings: seq<(string, string)>)
    requires forall k :: 0 <= k < |settings| ==>
               ';' !in settings[k].0 && '=' !in settings[k].0 && ';' !in settings[k].1
    ensures ParseSettings(Render(settings)) == Some(settings)
    decreases |settings|
  {
    if settings != [] {
      var (key, value) := settings[0];
      ParseEntry(key, value, Render(settings[1..]));
      RenderParses(settings[1..]);
      assert settings == [(key, value)] + settings[1..];
    }
  }

  // ---------------------------------------------------------------------------
  // The service object
  // ---------------------------------------------------------------------------

  class ConnectionService {
    const configuration: Config
    var cachedToken: Option<string>
    var tokenExpiry: int
    /** The refresh semaphore: true while some caller holds it. */
    ghost var lockHeld: bool
    /** When the cached token was stored. */
    ghost var refreshedAt: int
    /** How many times the token issuer has been asked. */
    ghost var issuerCalls: nat

    ghost function State(): TokenState
      reads this
    {
      TokenState(cachedToken, tokenExpiry)
    }

    /** The token and its expiry are only ever set together, one lifetime after the refresh. */
    ghost predicate Consistent()
      reads this
    {
      && (cachedToken.None? ==> tokenExpiry == MinValue)
      && (cachedToken.Some? ==> tokenExpiry == refreshedAt + TokenLifetime)
    }

    /** Between calls the state is consistent and the lock is free. */
    ghost predicate Valid()
      reads this
    {
      Consistent() && !lockHeld
    }

    constructor (configuration: Config)
      ensures Valid() && this.configuration == configuration
      ensures State() == Initial && issuerCalls == 0
    {
      this.configuration := configuration;
      cachedToken := None;
      tokenExpiry := MinValue;
      lockHeld := false;
      refreshedAt := MinValue;
      issuerCalls := 0;
    }

    /** The lock-free check: the cached token when it is still usable at `now`. */
    function CachedToken(now: int): (r: Option<string>)
      reads this
      ensures r.Some? <==> Usable(State(), now)
      ensures r.Some? ==> r == cachedToken
    {
      if cachedToken.Some? && now < tokenExpiry - SafetyMargin then cachedToken else None
    }

    /** Waiting for the refresh semaphore; a sequential caller finds it free. */
    ghost method AcquireLock()
      requires Consistent() && !lockHeld
      modifies this`lockHeld
      ensures lockHeld
    {
      lockHeld := true;
    }

    /** The issuer, asked only by the holder of the lock; a failure becomes one error. */
    method GenerateAuthToken(endpoint: string, region: string,
                             issuer: (string, string) -> Option<string>) returns (r: Result<string, Error>)
      requires lockHeld
      modifies this`issuerCalls
      ensures issuerCalls == old(issuerCalls) + 1
      ensures r == match issuer(endpoint, region)
                   case Some(t) => Success(t)
                   case None => Failure(TokenGenerationFailed)
    {
      issuerCalls := issuerCalls + 1;
      var generated := issuer(endpoint, region);
      if generated.Some? {
        r := Success(generated.value);
      } else {
        r := Failure(TokenGenerationFailed);
      }
    }

    /**
     * The part run under the lock: re-check the cache, otherwise generate and
     * store a new token. The lock is released on every way out.
     */
    method RefreshUnderLock(endpoint: string, region: string, recheckedAt: int, issuedAt: int,
                            issuer: (string, string) -> Option<string>) returns (r: Result<string, Error>)
      requires Consistent() && lockHeld
      modifies this
      ensures Valid()
      ensures Usable(old(State()), recheckedAt) ==>
                r == Success(old(cachedToken).value) && State() == old(State())
                && issuerCalls == old(issuerCalls)
      ensures !Usable(old(State()), recheckedAt) ==>
                issuerCalls == old(issuerCalls) + 1
                && match issuer(endpoint, region)
                   case None => r == Failure(TokenGenerationFailed) && State() == old(State())
                   case Some(t) => r == Success(t) && State() == TokenState(Some(t), issuedAt + TokenLifetime)
    {
      var cached := CachedToken(recheckedAt);
      if cached.Some? {
        lockHeld := false;
        return Success(cached.value);
      }
      var generated := GenerateAuthToken(endpoint, region, issuer);
      if generated.Failure? {
        lockHeld := false;
        return Failure(generated.error);
      }
      cachedToken := Some(generated.value);
      tokenExpiry := issuedAt + TokenLifetime;
      refreshedAt := issuedAt;
      lockHeld := false;
      return Success(generated.value);
    }

    /** The cached token if usable, otherwise a refresh under the lock; as GetOrRefresh says. */
    method GetOrRefreshToken(endpoint: string, region: string, call: Call) returns (r: Result<string, Error>)
      requires Valid()
      modifies this
      ensures Valid()
      ensures var step := GetOrRefresh(old(State()), endpoint, region, call);
              && r == step.result && State() == step.state
              && issuerCalls == old(issuerCalls) + (if step.issuerCalled then 1 else 0)
    {
      var cached := CachedToken(call.checkedAt);
      if cached.Some? {
        return Success(cached.value);
      }
      AcquireLock();
      r := RefreshUnderLock(endpoint, region, call.recheckedAt, call.issuedAt, call.issuer);
    }

    /**
     * A connection string around a usable token. A missing endpoint fails
     * before any token work; the other settings fall back to their defaults.
     */
    method GetConnectionString(call: Call) returns (r: Result<string, Error>)
      requires Valid()
      modifies this
      ensures Valid()
      ensures configuration.clusterEndpoint.None? ==>
                r == Failure(EndpointNotConfigured) && State() == old(State())
                && issuerCalls == old(issuerCalls)
      ensures configuration.clusterEndpoint.Some? ==>
                var endpoint := configuration.clusterEndpoint.value;
                var step := GetOrRefresh(old(State()), endpoint, Region(configuration), call);
                && State() == step.state
                && issuerCalls == old(issuerCalls) + (if step.issuerCalled then 1 else 0)
                && r == match step.result
                        case Success(token) =>
                          Success(ConnectionString(endpoint, Database(configuration), Username(configuration), token))
                        case Failure(e) => Failure(e)
    {
      if configuration.clusterEndpoint.None? {
        return Failure(EndpointNotConfigured);
      }
      var endpoint := configuration.clusterEndpoint.value;
      var region := Region(configuration);
      var database := Database(configuration);
      var username := Username(configuration);

      var token := GetOrRefreshToken(endpoint, region, call);
      if token.Failure? {
        return Failure(token.error);
      }

      var builder := "";
      builder := builder + "Host=" + endpoint + ";";
      assert builder == "Host=" + endpoint + ";";
      builder := builder + "Port=5432;";
      builder := builder + "Database=" + database + ";";
      builder := builder + "Username=" + username + ";";
      builder := builder + "Password=" + token.value + ";";
      builder := builder + "SSL Mode=Require;";
      builder := builder + "Trust Server Certificate=true;";
      builder := builder + "Timeout=30;";
      builder := builder + "Command Timeout=30;";
      ConnectionStringShape(endpoint, database, username, token.value);
      return Success(builder);
    }
  }

  /**
   * Two callers that both find the cache empty: the first to take the lock
   * refreshes, the second finds the new token at its re-check. The issuer is
   * asked once and both callers get the same token.
   */
  method TwoCallersOneRefresh(service: ConnectionService, endpoint: string, region: string,
                              t1: int, t2: int, issuer: (string, string) -> Option<string>)
    returns (r1: Result<string, Error>, r2: Result<string, Error>)
    requires service.Valid() && service.cachedToken.None?
    requires issuer(endpoint, region).Some?
    requires t1 <= t2 < t1 + TokenLifetime - SafetyMargin
    modifies service
    ensures service.Valid()
    ensures r1 == r2 == Success(issuer(endpoint, region).value)
    ensures service.issuerCalls == old(service.issuerCalls) + 1
  {
    var first := service.CachedToken(t1);
    var second := service.CachedToken(t1);
    assert first.None? && second.None?;
    service.AcquireLock();
    r1 := service.RefreshUnderLock(endpoint, region, t1, t1, issuer);
    service.AcquireLock();
    r2 := service.RefreshUnderLock(endpoint, region, t2, t2, issuer);
  }
}
