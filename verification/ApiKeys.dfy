/**
 API-key resolution: two database rows behind a cache keyed by the non-secret part of the key.

 `sha` stands for the hash of a full key; nothing is assumed about it.
 */
module ApiKeys {
  import opened Prelude
  import opened Origins

  type Sha = string -> string

  datatype KeyRow = KeyRow(application: string, keyHash: string, keyType: string, active: bool)

  datatype Database = Database(keys: map<string, KeyRow>, applications: Registry)

  datatype Resolution = Resolution(tenant: string, application: string, keyType: string, origins: seq<string>)

  /** A cached resolution; entries written before hashes were stored carry none. */
  datatype Entry = Entry(resolution: Resolution, active: bool, keyHash: Option<string>, expiresAt: int)

  type Cache = map<string, Entry>

  datatype Answer = BadFormat | Rejected | Accepted(resolution: Resolution)

  // ----- keys -----

  const PUBLISHABLE: string := "pk_live_"
  const SECRET: string := "sk_live_"
  const KEY_ID_LENGTH: nat := 8

  /** Prefix and first eight characters; a Python slice stops at the end of a short string. */
  function GetKeyId(fullKey: string): Option<string> {
    if PUBLISHABLE <= fullKey || SECRET <= fullKey
    then Some(fullKey[..if |fullKey| < 8 + KEY_ID_LENGTH then |fullKey| else 8 + KEY_ID_LENGTH])
    else None
  }

  predicate VerifyApiKey(sha: Sha, secret: string, stored: string, keyId: string) {
    secret != "" && GetKeyId(secret) == Some(keyId) && stored == sha(secret)
  }

  // ----- the answer the two rows give -----

  function Resolve(db: Database, keyId: string): Option<Resolution> {
    if keyId in db.keys && db.keys[keyId].active
       && db.keys[keyId].application in db.applications && db.applications[db.keys[keyId].application].active
    then
      var key := db.keys[keyId];
      var app := db.applications[key.application];
      Some(Resolution(app.tenant, key.application, key.keyType, app.origins))
    else None
  }

  function DatabaseAnswer(sha: Sha, db: Database, fullKey: string, secret: string): Answer {
    match GetKeyId(fullKey)
    case None => BadFormat
    case Some(keyId) =>
      var r := Resolve(db, keyId);
      if r.Some? && VerifyApiKey(sha, secret, db.keys[keyId].keyHash, keyId) then Accepted(r.value) else Rejected
  }

  // ----- what that answer means -----

  predicate KeyActive(db: Database, keyId: string, keyHash: string, application: string, keyType: string) {
    keyId in db.keys && db.keys[keyId] == KeyRow(application, keyHash, keyType, true)
  }

  predicate ApplicationActive(db: Database, r: Resolution) {
    r.application in db.applications && db.applications[r.application] == Application(r.tenant, r.origins, true)
  }

  /** An answer read from the database accepts exactly when the key row and its application's row are active and as
      answered, and the secret belongs to the key and has the stored hash. */
  lemma DatabaseAnswerIff(sha: Sha, db: Database, fullKey: string, secret: string, r: Resolution)
    ensures DatabaseAnswer(sha, db, fullKey, secret) == Accepted(r) <==>
            && GetKeyId(fullKey).Some? && GetKeyId(secret) == GetKeyId(fullKey)
            && KeyActive(db, GetKeyId(fullKey).value, sha(secret), r.application, r.keyType)
            && ApplicationActive(db, r)
    ensures DatabaseAnswer(sha, db, fullKey, secret) == BadFormat <==> GetKeyId(fullKey).None?
  {
  }

  /** The id of a key is its prefix and its next eight characters, and keys of no known prefix have none. */
  lemma KeyIdIs(prefix: string, head: string, rest: string)
    requires |head| == 8
    ensures prefix in {"pk_live_", "sk_live_"} ==> GetKeyId(prefix + head + rest) == Some(prefix + head)
    ensures forall k :: GetKeyId(k).None? <==> !("pk_live_" <= k) && !("sk_live_" <= k)
  {
    assert (prefix + head + rest)[..|prefix|] == prefix;
    assert (prefix + head + rest)[..|prefix| + 8] == prefix + head;
  }

  // ----- the cache -----

  function Lookup(cache: Cache, keyId: string, now: int): Option<Entry> {
    if keyId in cache && now < cache[keyId].expiresAt && cache[keyId].keyHash.Some? then Some(cache[keyId]) else None
  }

  function EntryAnswer(sha: Sha, e: Entry, keyId: string, secret: string): Answer
    requires e.keyHash.Some?
  {
    if e.active && VerifyApiKey(sha, secret, e.keyHash.value, keyId) then Accepted(e.resolution) else Rejected
  }

  function CachedAnswer(sha: Sha, db: Database, cache: Cache, fullKey: string, secret: string, now: int): Answer {
    match GetKeyId(fullKey)
    case None => BadFormat
    case Some(keyId) =>
      match Lookup(cache, keyId, now)
      case Some(e) => EntryAnswer(sha, e, keyId, secret)
      case None => DatabaseAnswer(sha, db, fullKey, secret)
  }

  /** What a verification leaves in the cache: only a success read from the database is stored. */
  function CacheAfter(
      sha: Sha, db: Database, cache: Cache, ttl: int, fullKey: string, secret: string, now: int): Cache {
    match GetKeyId(fullKey)
    case None => cache
    case Some(keyId) =>
      if Lookup(cache, keyId, now).Some? then cache
      else match DatabaseAnswer(sha, db, fullKey, secret)
        case Accepted(r) => cache[keyId := Entry(r, true, Some(db.keys[keyId].keyHash), now + ttl)]
        case _ => cache
  }

  // ----- the cached form refines the plain one -----

  /** The entry says what the database says. */
  predicate Matches(db: Database, keyId: string, e: Entry) {
    && e.keyHash.Some?
    && Resolve(db, keyId) == Some(e.resolution)
    && e.active
    && db.keys[keyId].keyHash == e.keyHash.value
  }

  ghost predicate Coherent(db: Database, cache: Cache, now: int) {
    forall k :: k in cache && now < cache[k].expiresAt ==> Matches(db, k, cache[k])
  }

  /** While every live entry matches the database, the cache changes no answer, and stays that way. */
  lemma CacheRefinesDatabase(sha: Sha, db: Database, cache: Cache, ttl: int, fullKey: string, secret: string, now: int)
    requires Coherent(db, cache, now)
    ensures CachedAnswer(sha, db, cache, fullKey, secret, now) == DatabaseAnswer(sha, db, fullKey, secret)
    ensures Coherent(db, CacheAfter(sha, db, cache, ttl, fullKey, secret, now), now)
  {
  }

  /** In full: a live entry with a hash accepts exactly when it is active and the secret belongs to the key and has
      that hash, with what was stored; everything else is answered from the database. */
  lemma CachedAnswerIff(sha: Sha, db: Database, cache: Cache, fullKey: string, secret: string, now: int, r: Resolution)
    requires GetKeyId(fullKey).Some?
    ensures var keyId := GetKeyId(fullKey).value;
            CachedAnswer(sha, db, cache, fullKey, secret, now) == Accepted(r) <==>
            if keyId in cache && now < cache[keyId].expiresAt && cache[keyId].keyHash.Some?
            then cache[keyId].active && cache[keyId].keyHash == Some(sha(secret)) && GetKeyId(secret) == Some(keyId)
                 && cache[keyId].resolution == r
            else GetKeyId(secret) == Some(keyId) && ApplicationActive(db, r)
                 && KeyActive(db, keyId, sha(secret), r.application, r.keyType)
  {
    DatabaseAnswerIff(sha, db, fullKey, secret, r);
  }

  // ----- serialised calls: a revoked key is never accepted again -----

  datatype Call =
    | Verify(fullKey: string, secret: string)
    | RevokeKey(application: string, keyId: string)
    | CreateKey(application: string, publishable: string, secretKey: string)
    | CreateApplication(id: string, tenant: string, origins: seq<string>, publishable: string, secretKey: string)
    | UpdateApplication(id: string, upd: Update)

  datatype Stores = Stores(db: Database, cache: Cache)

  /** Both keys of a pair are stored, or neither: an id already taken fails the whole request. */
  function PairStorable(keys: map<string, KeyRow>, publishable: string, secretKey: string): bool {
    var p, s := GetKeyId(publishable), GetKeyId(secretKey);
    p.Some? && s.Some? && p.value !in keys && s.value !in keys && p != s
  }

  function WithPair(sha: Sha, keys: map<string, KeyRow>, application: string, publishable: string, secretKey: string)
    : map<string, KeyRow>
    requires PairStorable(keys, publishable, secretKey)
  {
    keys[GetKeyId(publishable).value := KeyRow(application, sha(publishable), "publishable", true)]
        [GetKeyId(secretKey).value := KeyRow(application, sha(secretKey), "secret", true)]
  }

  predicate Revocable(db: Database, application: string, keyId: string) {
    application in db.applications && keyId in db.keys && db.keys[keyId].application == application
  }

  function Commit(sha: Sha, db: Database, c: Call): Database {
    match c
    case Verify(_, _) => db
    case RevokeKey(app, keyId) =>
      if Revocable(db, app, keyId) then db.(keys := db.keys[keyId := db.keys[keyId].(active := false)]) else db
    case CreateKey(app, pk, sk) =>
      if app in db.applications && db.applications[app].active && PairStorable(db.keys, pk, sk)
      then db.(keys := WithPair(sha, db.keys, app, pk, sk)) else db
    case CreateApplication(id, tenant, origins, pk, sk) =>
      if Available(db.applications, origins, None) && PairStorable(db.keys, pk, sk)
      then Database(WithPair(sha, db.keys, id, pk, sk), Registered(db.applications, id, tenant, origins)) else db
    case UpdateApplication(id, upd) => db.(applications := Updated(db.applications, id, upd))
  }

  function Invalidated(db: Database, cache: Cache, c: Call): Cache {
    if c.RevokeKey? && Revocable(db, c.application, c.keyId) then cache - {c.keyId} else cache
  }

  function Perform(sha: Sha, ttl: int, s: Stores, c: Call, now: int): Stores {
    match c
    case Verify(full, secret) => s.(cache := CacheAfter(sha, s.db, s.cache, ttl, full, secret, now))
    case _ => Stores(Commit(sha, s.db, c), Invalidated(s.db, s.cache, c))
  }

  /** Every cached entry belongs to an active key row with the same hash. */
  ghost predicate Tied(s: Stores) {
    forall k :: k in s.cache ==>
                  k in s.db.keys && s.db.keys[k].active && s.cache[k].keyHash == Some(s.db.keys[k].keyHash)
  }

  /** Key rows are never removed, rehashed or brought back. */
  lemma KeyRowsOnlyDie(sha: Sha, db: Database, c: Call, k: string)
    requires k in db.keys
    ensures var r' := Commit(sha, db, c).keys[k];
            && k in Commit(sha, db, c).keys
            && r'.keyHash == db.keys[k].keyHash && r'.application == db.keys[k].application
            && r'.keyType == db.keys[k].keyType
            && (r'.active ==> db.keys[k].active)
            && (!r'.active && db.keys[k].active ==> c.RevokeKey? && c.keyId == k && Revocable(db, c.application, k))
  {
  }

  lemma TiedIsInductive(sha: Sha, ttl: int, s: Stores, c: Call, now: int)
    requires Tied(s)
    ensures Tied(Perform(sha, ttl, s, c, now))
  {
    var s' := Perform(sha, ttl, s, c, now);
    forall k | k in s'.cache
      ensures k in s'.db.keys && s'.db.keys[k].active && s'.cache[k].keyHash == Some(s'.db.keys[k].keyHash)
    {
      if k in s.cache { KeyRowsOnlyDie(sha, s.db, c, k); }
    }
  }

  function Run(sha: Sha, ttl: int, calls: seq<(int, Call)>, n: nat): Stores
    requires n <= |calls|
  {
    if n == 0 then Stores(Database(map[], map[]), map[])
    else Perform(sha, ttl, Run(sha, ttl, calls, n - 1), calls[n - 1].1, calls[n - 1].0)
  }

  lemma {:induction false} TiedAlways(sha: Sha, ttl: int, calls: seq<(int, Call)>, n: nat)
    requires n <= |calls|
    ensures Tied(Run(sha, ttl, calls, n))
  {
    if n > 0 {
      TiedAlways(sha, ttl, calls, n - 1);
      TiedIsInductive(sha, ttl, Run(sha, ttl, calls, n - 1), calls[n - 1].1, calls[n - 1].0);
    }
  }

  lemma {:induction false} RevokedStays(sha: Sha, ttl: int, calls: seq<(int, Call)>, m: nat, n: nat, k: string)
    requires m <= n <= |calls|
    requires k in Run(sha, ttl, calls, m).db.keys && !Run(sha, ttl, calls, m).db.keys[k].active
    ensures k in Run(sha, ttl, calls, n).db.keys && !Run(sha, ttl, calls, n).db.keys[k].active
  {
    if m < n {
      RevokedStays(sha, ttl, calls, m, n - 1, k);
      KeyRowsOnlyDie(sha, Run(sha, ttl, calls, n - 1).db, calls[n - 1].1, k);
    }
  }

  /** With serialised calls a revoked key is never accepted again, whatever the time to live. */
  lemma RevokedNeverAccepted(
      sha: Sha, ttl: int, calls: seq<(int, Call)>, m: nat, n: nat, fullKey: string, secret: string, now: int)
    requires m <= n <= |calls| && GetKeyId(fullKey).Some?
    requires var db := Run(sha, ttl, calls, m).db;
             GetKeyId(fullKey).value in db.keys && !db.keys[GetKeyId(fullKey).value].active
    ensures var s := Run(sha, ttl, calls, n);
            CachedAnswer(sha, s.db, s.cache, fullKey, secret, now) == Rejected
  {
    RevokedStays(sha, ttl, calls, m, n, GetKeyId(fullKey).value);
    TiedAlways(sha, ttl, calls, n);
  }

  /** Even a stale entry never accepts a secret whose hash differs from the stored one. */
  lemma StaleEntryStillChecksSecret(
      sha: Sha, ttl: int, calls: seq<(int, Call)>, n: nat, fullKey: string, secret: string, now: int)
    requires n <= |calls|
    requires var s := Run(sha, ttl, calls, n); CachedAnswer(sha, s.db, s.cache, fullKey, secret, now).Accepted?
    ensures GetKeyId(fullKey).Some? && GetKeyId(secret) == GetKeyId(fullKey)
    ensures var keys := Run(sha, ttl, calls, n).db.keys;
            GetKeyId(fullKey).value in keys && keys[GetKeyId(fullKey).value].keyHash == sha(secret)
  {
    TiedAlways(sha, ttl, calls, n);
  }

  /** Suspending an application does not reach the cache: its key is still accepted until the entry expires. */
  lemma SuspensionWaitsForTheCache(
      sha: Sha, ttl: int, calls: seq<(int, Call)>, n: nat, fullKey: string, secret: string, at: int)
    requires n <= |calls| && ttl > 0
    requires var s := Run(sha, ttl, calls, n);
             && DatabaseAnswer(sha, s.db, fullKey, secret).Accepted?
             && Lookup(s.cache, GetKeyId(fullKey).value, at).None?
    ensures var s := Run(sha, ttl, calls, n);
            var app := DatabaseAnswer(sha, s.db, fullKey, secret).resolution.application;
            var cached := Perform(sha, ttl, s, Verify(fullKey, secret), at);
            var suspended := Perform(sha, ttl, cached, UpdateApplication(app, Update(None, Some(false))), at);
            && DatabaseAnswer(sha, suspended.db, fullKey, secret) == Rejected
            && forall now :: CachedAnswer(sha, suspended.db, suspended.cache, fullKey, secret, now).Accepted? <==>
                now < at + ttl
  {
  }

  /** A new pair works: right after it was issued, each key is accepted with itself as the secret, as a key of its
      own type for its application. */
  lemma IssuedKeysVerify(sha: Sha, db: Database, c: Call)
    requires c.CreateKey? || c.CreateApplication?
    requires PairStorable(db.keys, c.publishable, c.secretKey)
    requires c.CreateKey? ==> c.application in db.applications && db.applications[c.application].active
    requires c.CreateApplication? ==> Available(db.applications, c.origins, None)
    ensures var id := if c.CreateKey? then c.application else c.id;
            var app := if c.CreateKey? then db.applications[id] else Application(c.tenant, c.origins, true);
            var db' := Commit(sha, db, c);
            && DatabaseAnswer(sha, db', c.publishable, c.publishable) ==
               Accepted(Resolution(app.tenant, id, "publishable", app.origins))
            && DatabaseAnswer(sha, db', c.secretKey, c.secretKey) ==
               Accepted(Resolution(app.tenant, id, "secret", app.origins))
  {
  }

  // ----- the service -----

  class ApplicationService {
    var db: Database
    var cache: Cache
    const sha: Sha
    const ttl: int

    constructor (sha: Sha, ttl: int)
      ensures this.sha == sha && this.ttl == ttl && db == Database(map[], map[]) && cache == map[]
    {
      this.sha, this.ttl := sha, ttl;
      db, cache := Database(map[], map[]), map[];
    }

    method VerifyKey(fullKey: string, secret: string, now: int) returns (answer: Answer)
      modifies this`cache
      ensures answer == CachedAnswer(sha, db, old(cache), fullKey, secret, now)
      ensures cache == CacheAfter(sha, db, old(cache), ttl, fullKey, secret, now)
      ensures answer.Accepted? ==> GetKeyId(fullKey).Some? && GetKeyId(secret) == GetKeyId(fullKey)
      ensures answer.Accepted? && cache != old(cache) ==>
                var keyId, r := GetKeyId(fullKey).value, answer.resolution;
                && KeyActive(db, keyId, sha(secret), r.application, r.keyType) && ApplicationActive(db, r)
                && cache == old(cache)[keyId := Entry(r, true, Some(sha(secret)), now + ttl)]
    {
      var id := GetKeyId(fullKey);
      if id.None? { return BadFormat; }
      var keyId := id.value;
      if keyId in cache && now < cache[keyId].expiresAt && cache[keyId].keyHash.Some? {
        var cached := cache[keyId];
        if !cached.active { return Rejected; }
        if !VerifyApiKey(sha, secret, cached.keyHash.value, keyId) { return Rejected; }
        return Accepted(cached.resolution);
      }
      if keyId !in db.keys || !db.keys[keyId].active { return Rejected; }
      var key := db.keys[keyId];
      if !VerifyApiKey(sha, secret, key.keyHash, keyId) { return Rejected; }
      if key.application !in db.applications || !db.applications[key.application].active { return Rejected; }
      var app := db.applications[key.application];
      var result := Resolution(app.tenant, key.application, key.keyType, app.origins);
      cache := cache[keyId := Entry(result, true, Some(key.keyHash), now + ttl)];
      answer := Accepted(result);
    }

    method RevokeKey(application: string, keyId: string) returns (status: int)
      modifies this
      ensures Stores(db, cache) == Perform(sha, ttl, old(Stores(db, cache)), Call.RevokeKey(application, keyId), 0)
      ensures status == if Revocable(old(db), application, keyId) then 200 else 404
      ensures status == 200 ==>
                && db == Database(old(db).keys[keyId := old(db).keys[keyId].(active := false)], old(db).applications)
                && cache == old(cache) - {keyId}
      ensures status == 404 ==> db == old(db) && cache == old(cache)
    {
      if application !in db.applications { return 404; }
      if keyId !in db.keys || db.keys[keyId].application != application { return 404; }
      db := db.(keys := db.keys[keyId := db.keys[keyId].(active := false)]);
      cache := cache - {keyId};
      status := 200;
    }

    /** Inserts the two rows of a pair one after the other; a taken id fails the request. */
    method IssueKeyPair(application: string, publishable: string, secretKey: string) returns (ok: bool)
      modifies this`db
      ensures ok == PairStorable(old(db).keys, publishable, secretKey)
      ensures ok ==> db == old(db).(keys := WithPair(sha, old(db).keys, application, publishable, secretKey))
    {
      var p, s := GetKeyId(publishable), GetKeyId(secretKey);
      if p.None? || s.None? || p.value in db.keys { return false; }
      db := db.(keys := db.keys[p.value := KeyRow(application, sha(publishable), "publishable", true)]);
      if s.value in db.keys { return false; }
      db := db.(keys := db.keys[s.value := KeyRow(application, sha(secretKey), "secret", true)]);
      ok := true;
    }

    method CreateKey(application: string, publishable: string, secretKey: string) returns (status: int)
      modifies this`db
      ensures db == Commit(sha, old(db), Call.CreateKey(application, publishable, secretKey))
      ensures status == if application !in old(db).applications then 404
                        else if !old(db).applications[application].active then 409
                        else if PairStorable(old(db).keys, publishable, secretKey) then 201 else 500
      ensures status == 201 ==>
                && db.applications == old(db).applications
                && db.keys == old(db).keys[GetKeyId(publishable).value :=
                                             KeyRow(application, sha(publishable), "publishable", true)]
                                          [GetKeyId(secretKey).value :=
                                             KeyRow(application, sha(secretKey), "secret", true)]
      ensures status != 201 ==> db == old(db)
    {
      if application !in db.applications { return 404; }
      if !db.applications[application].active { return 409; }
      var snapshot := db;
      var ok := IssueKeyPair(application, publishable, secretKey);
      if !ok { db := snapshot; return 500; }
      status := 201;
    }

    method CreateApplication(id: string, tenant: string, origins: seq<string>, publishable: string, secretKey: string)
      returns (status: int)
      requires id !in db.applications
      modifies this`db
      ensures db == Commit(sha, old(db), Call.CreateApplication(id, tenant, origins, publishable, secretKey))
      ensures status == if !Available(old(db).applications, origins, None) then 409
                        else if PairStorable(old(db).keys, publishable, secretKey) then 201 else 500
      ensures status == 201 ==>
                && db.applications == old(db).applications[id := Application(tenant, origins, true)]
                && db.keys == old(db).keys[GetKeyId(publishable).value :=
                                             KeyRow(id, sha(publishable), "publishable", true)]
                                          [GetKeyId(secretKey).value := KeyRow(id, sha(secretKey), "secret", true)]
      ensures status != 201 ==> db == old(db)
    {
      var free := EnsureOriginsAvailable(db.applications, origins, None);
      if !free { return 409; }
      var snapshot := db;
      db := db.(applications := db.applications[id := Application(tenant, origins, true)]);
      var ok := IssueKeyPair(id, publishable, secretKey);
      if !ok { db := snapshot; return 500; }
      status := 201;
    }

    method UpdateApplication(id: string, upd: Update) returns (status: int)
      modifies this`db
      ensures db == Commit(sha, old(db), Call.UpdateApplication(id, upd))
      ensures status == if id !in old(db).applications then 404
                        else if upd.origins.Some? && !Available(old(db).applications, upd.origins.value, Some(id))
                        then 409 else 200
      ensures status == 200 ==>
                var app := old(db).applications[id];
                && db.keys == old(db).keys
                && db.applications == old(db).applications[id := Application(
                     app.tenant,
                     if upd.origins.Some? then upd.origins.value else app.origins,
                     if upd.active.Some? then upd.active.value else app.active)]
      ensures status != 200 ==> db == old(db)
    {
      if id !in db.applications { return 404; }
      if upd.origins.Some? {
        var free := EnsureOriginsAvailable(db.applications, upd.origins.value, Some(id));
        if !free { return 409; }
      }
      var app := db.applications[id];
      if upd.origins.Some? { app := app.(origins := upd.origins.value); }
      if upd.active.Some? { app := app.(active := upd.active.value); }
      db := db.(applications := db.applications[id := app]);
      status := 200;
    }
  }
}
