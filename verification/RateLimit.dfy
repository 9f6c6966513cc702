/** The gateway's two rate-limiting middlewares: which bucket and which limit a request is held to. */
module RateLimit {
  import opened Prelude
  import opened SlidingWindow

  datatype Limits = Limits(
    login: int, register: int, resetPassword: int, verifyEmail: int,
    refresh: int, sessions: int, global: int, perKey: int)

  function LimitForPath(limits: Limits, path: string): int {
    if path in {"/v1/auth/login", "/auth/login"} then limits.login
    else if path in {"/v1/auth/register", "/auth/register"} then limits.register
    else if path in {"/v1/auth/reset-password", "/auth/reset-password"} then limits.resetPassword
    else if path in {"/v1/auth/verify-email", "/auth/verify-email",
                     "/v1/auth/resend-verification", "/auth/resend-verification"} then limits.verifyEmail
    else if path in {"/v1/auth/refresh", "/auth/refresh"} then limits.refresh
    else if "/v1/sessions" <= path || "/sessions" <= path then limits.sessions
    else limits.global
  }

  const LOGIN: set<string> := {"/v1/auth/login", "/auth/login"}
  const REGISTER: set<string> := {"/v1/auth/register", "/auth/register"}
  const RESET_PASSWORD: set<string> := {"/v1/auth/reset-password", "/auth/reset-password"}
  const VERIFY_EMAIL: set<string> := {"/v1/auth/verify-email", "/auth/verify-email",
                                      "/v1/auth/resend-verification", "/auth/resend-verification"}
  const REFRESH: set<string> := {"/v1/auth/refresh", "/auth/refresh"}

  predicate SessionPath(path: string) { "/v1/sessions" <= path || "/sessions" <= path }

  /** The limit each group of paths is held to, whichever test comes first. */
  predicate HeldTo(limits: Limits, path: string, limit: int) {
    && (path in LOGIN ==> limit == limits.login)
    && (path in REGISTER ==> limit == limits.register)
    && (path in RESET_PASSWORD ==> limit == limits.resetPassword)
    && (path in VERIFY_EMAIL ==> limit == limits.verifyEmail)
    && (path in REFRESH ==> limit == limits.refresh)
    && (SessionPath(path) ==> limit == limits.sessions)
    && (path !in LOGIN + REGISTER + RESET_PASSWORD + VERIFY_EMAIL + REFRESH && !SessionPath(path) ==>
          limit == limits.global)
  }

  lemma SessionPathsAreUnlisted(path: string)
    requires SessionPath(path)
    ensures path !in LOGIN + REGISTER + RESET_PASSWORD + VERIFY_EMAIL + REFRESH
  {
    assert path[1] == 's' || (path[1] == 'v' && path[4] == 's');
  }

  /** Lengths and last letters tell the groups apart. */
  lemma ListedPaths(path: string)
    ensures path in LOGIN ==> |path| in {11, 14} && path[|path| - 1] == 'n'
    ensures path in REGISTER ==> |path| in {14, 17} && path[|path| - 1] == 'r'
    ensures path in RESET_PASSWORD ==> |path| in {20, 23}
    ensures path in VERIFY_EMAIL ==> |path| in {18, 21, 25, 28}
    ensures path in REFRESH ==> |path| in {13, 16}
  {
  }

  lemma LimitForPathHolds(limits: Limits, path: string)
    ensures HeldTo(limits, path, LimitForPath(limits, path))
  {
    ListedPaths(path);
    if SessionPath(path) { SessionPathsAreUnlisted(path); }
  }

  function SlashesToUnderscores(s: string): string {
    seq(|s|, i requires 0 <= i < |s| => if s[i] == '/' then '_' else s[i])
  }

  function StripUnderscores(s: string): string {
    if |s| > 0 && s[0] == '_' then StripUnderscores(s[1..])
    else if |s| > 0 && s[|s| - 1] == '_' then StripUnderscores(s[..|s| - 1])
    else s
  }

  function PathGroup(path: string): string {
    var group := StripUnderscores(SlashesToUnderscores(path));
    if group == "" then "root" else group
  }

  function IpBucket(ip: string, path: string): string { "rate:" + ip + ":" + PathGroup(path) }

  function KeyBucket(application: string, path: string): string { "ratekey:" + application + ":" + PathGroup(path) }

  /** Both limiters write to one Redis database; their buckets never mix. */
  lemma LimitersNeverShareABucket(ip: string, path: string, application: string, path': string)
    ensures IpBucket(ip, path) != KeyBucket(application, path')
  {
    assert IpBucket(ip, path)[4] == ':';
    assert KeyBucket(application, path')[4] == 'k';
  }

  // ----- which requests share a bucket -----

  lemma LongerHasColon(a: string, g: string, a': string, g': string)
    requires a + ":" + g == a' + ":" + g' && |a| < |a'|
    ensures ':' in a' && ':' in g
  {
    var s := a + ":" + g;
    assert s[|a|] == a'[|a|] && s[|a'|] == g[|a'| - |a| - 1];
    assert (a' + ":" + g')[|a'|] == ':';
  }

  /** Split at the first colon when what comes before has none, or at the last when what follows has none. */
  lemma ColonSplits(a: string, g: string, a': string, g': string)
    requires a + ":" + g == a' + ":" + g'
    requires (':' !in a && ':' !in a') || (':' !in g && ':' !in g')
    ensures a == a' && g == g'
  {
    var s := a + ":" + g;
    assert s[..|a|] == a && s[|a| + 1..] == g && s[..|a'|] == a' && s[|a'| + 1..] == g';
    if |a| < |a'| {
      LongerHasColon(a, g, a', g');
    } else if |a'| < |a| {
      LongerHasColon(a', g', a, g);
    }
  }

  /** Application ids have no colon, so no two applications and no two path groups share a bucket. */
  lemma KeyBucketsApart(application: string, path: string, application': string, path': string)
    requires ':' !in application && ':' !in application'
    ensures KeyBucket(application, path) == KeyBucket(application', path') <==>
            application == application' && PathGroup(path) == PathGroup(path')
  {
    var b, b' := KeyBucket(application, path), KeyBucket(application', path');
    assert b[8..] == application + ":" + PathGroup(path) && b'[8..] == application' + ":" + PathGroup(path');
    if b == b' { ColonSplits(application, PathGroup(path), application', PathGroup(path')); }
  }

  /** The same for addresses, if they have no colon, or the paths have none. */
  lemma IpBucketsApart(ip: string, path: string, ip': string, path': string)
    requires (':' !in ip && ':' !in ip') || (':' !in PathGroup(path) && ':' !in PathGroup(path'))
    ensures IpBucket(ip, path) == IpBucket(ip', path') <==> ip == ip' && PathGroup(path) == PathGroup(path')
  {
    var b, b' := IpBucket(ip, path), IpBucket(ip', path');
    assert b[5..] == ip + ":" + PathGroup(path) && b'[5..] == ip' + ":" + PathGroup(path');
    if b == b' { ColonSplits(ip, PathGroup(path), ip', PathGroup(path')); }
  }

  /** Two IPv6 addresses can share one, through a path with a colon. */
  lemma ColonsMixAddresses()
    ensures IpBucket("fe80::1", "2:x") == IpBucket("fe80::1:2", "x")
  {
    assert StripUnderscores("x") == "x" && StripUnderscores("2:x") == "2:x";
    assert SlashesToUnderscores("x") == "x" && SlashesToUnderscores("2:x") == "2:x";
    assert IpBucket("fe80::1", "2:x") == "rate:fe80::1:2:x";
    assert IpBucket("fe80::1:2", "x") == "rate:fe80::1:2:x";
  }

  /** What follows the leading slash: not empty, without underscores, no slash at either end. */
  predicate Plain(rest: string) { rest != "" && '_' !in rest && rest[0] != '/' && rest[|rest| - 1] != '/' }

  lemma PlainGroup(rest: string)
    requires Plain(rest)
    ensures PathGroup("/" + rest) == SlashesToUnderscores(rest)
  {
    var s := SlashesToUnderscores(rest);
    assert SlashesToUnderscores("/" + rest) == "_" + s && ("_" + s)[1..] == s;
    assert s[0] == rest[0] && s[|s| - 1] == rest[|rest| - 1];
    assert rest[0] in rest && rest[|rest| - 1] in rest;
    assert StripUnderscores("_" + s) == StripUnderscores(s) == s;
  }

  /** Different paths of that form are different groups; only "/" shares the group of "/root". */
  lemma PlainPathsApart(rest: string, rest': string)
    requires Plain(rest) && Plain(rest')
    ensures PathGroup("/" + rest) == PathGroup("/" + rest') <==> rest == rest'
    ensures PathGroup("/") == PathGroup("/" + rest) <==> rest == "root"
  {
    PlainGroup(rest);
    PlainGroup(rest');
    SlashesInjective(rest, rest');
    SlashesInjective(rest, "root");
    assert SlashesToUnderscores("/") == "_" && StripUnderscores("_") == "";
    assert SlashesToUnderscores("root") == "root";
  }

  lemma SlashesInjective(s: string, s': string)
    requires '_' !in s && '_' !in s'
    ensures SlashesToUnderscores(s) == SlashesToUnderscores(s') <==> s == s'
  {
    var u, u' := SlashesToUnderscores(s), SlashesToUnderscores(s');
    if u == u' {
      forall i | 0 <= i < |s| ensures s[i] == s'[i] {
        assert u[i] == u'[i] && s[i] in s && s'[i] in s';
      }
    }
  }

  /** Without delay the last request of a log is accepted as the log of its bucket says. */
  lemma LogDecides(log: seq<Request>)
    requires log != []
    ensures var r := log[|log| - 1];
            Instant(log) ==>
              (Accepted(log, |log| - 1) <==> RequestsSince(log, |log|, r.key, r.stamp - WINDOW) <= r.limit)
  {
    if Instant(log) { AcceptedIffLogWithinLimit(log, |log| - 1); }
  }

  lemma LoginLimit(limits: Limits, path: string)
    requires path in LOGIN
    ensures LimitForPath(limits, path) == limits.login
  {
  }

  /** So a login is accepted if and only if its address has made at most `login` of them in the last minute,
      refused ones included. */
  lemma LoginsAreLimited(limits: Limits, log: seq<Request>, ip: string, path: string)
    requires Instant(log) && log != [] && path in LOGIN
    requires log[|log| - 1].key == IpBucket(ip, path) && log[|log| - 1].limit == LimitForPath(limits, path)
    ensures Accepted(log, |log| - 1) <==>
            RequestsSince(log, |log|, IpBucket(ip, path), log[|log| - 1].stamp - WINDOW) <= limits.login
  {
    LoginLimit(limits, path);
    LogDecides(log);
  }

  /** The two middlewares over one Redis database, with the log of every request they counted. */
  class RateLimiter {
    const limits: Limits
    const redis: SortedSets
    ghost var log: seq<Request>

    ghost predicate Valid() reads this, redis { redis.store == After(log, |log|) }

    constructor (limits: Limits)
      ensures Valid() && fresh(redis) && log == [] && this.limits == limits
    {
      this.limits := limits;
      redis := new SortedSets();
      log := [];
    }

    method Count(r: Request) returns (accepted: bool)
      requires Valid()
      modifies this, redis
      ensures Valid() && log == old(log) + [r] && accepted == Accepted(log, |log| - 1)
    {
      var count := redis.RunPipeline(r);
      AfterPrefix(log, [r], |log|);
      log := log + [r];
      accepted := !(count > r.limit);
    }

    /** The per-address middleware, for a request stamped at `stamp` whose pipeline runs at `now`. */
    method LimitByIp(ip: string, path: string, stamp: int, now: int) returns (accepted: bool)
      requires Valid()
      modifies this, redis
      ensures Valid() && log == old(log) + [Request(IpBucket(ip, path), LimitForPath(limits, path), stamp, now)]
      ensures accepted == Accepted(log, |log| - 1)
      ensures HeldTo(limits, path, log[|log| - 1].limit)
      ensures Instant(log) ==>
                (accepted <==> RequestsSince(log, |log|, IpBucket(ip, path), stamp - WINDOW) <= log[|log| - 1].limit)
    {
      var limit := LimitForPath(limits, path);
      var key := IpBucket(ip, path);
      accepted := Count(Request(key, limit, stamp, now));
      LimitForPathHolds(limits, path);
      LogDecides(log);
    }

    /** The per-application middleware: only key-authenticated requests with an application id count. */
    method LimitByKey(authenticated: bool, application: Option<string>, path: string, stamp: int, now: int)
      returns (accepted: bool)
      requires Valid()
      modifies this, redis
      ensures Valid()
      ensures !authenticated || application.None? || application.value == "" ==>
                accepted && log == old(log) && redis.store == old(redis.store)
      ensures authenticated && application.Some? && application.value != "" ==>
                && log == old(log) + [Request(KeyBucket(application.value, path), limits.perKey, stamp, now)]
                && accepted == Accepted(log, |log| - 1)
                && (Instant(log) ==>
                      (accepted <==> RequestsSince(log, |log|, KeyBucket(application.value, path), stamp - WINDOW)
                                     <= limits.perKey))
    {
      if !authenticated || application.None? || application.value == "" {
        return true;
      }
      accepted := Count(Request(KeyBucket(application.value, path), limits.perKey, stamp, now));
      LogDecides(log);
    }
  }
}
