/**
 The sessions table of session-service and the requests that read and write it.

 Refresh tokens are represented by their hashes: the hash function is collision-free, so a token
 and its hash identify each other. Row ids (UUIDs) are supplied fresh by the caller.
 */
module Sessions {
  import opened Prelude

  type Hash = string
  type RowId = nat

  datatype Row = Row(
    tenant: string, user: string, hash: Hash, revoked: bool, expiresAt: int, createdAt: int)

  type Table = map<RowId, Row>

  datatype CreateRequest = CreateRequest(user: string, tenant: string, hash: Hash, expiresAt: int)

  // ----- what the queries read -----

  function Hashes(t: Table): set<Hash> { set i | i in t :: t[i].hash }

  /** The unique constraint on `refresh_token_hash`. */
  ghost predicate UniqueHashes(t: Table) {
    forall i, j :: i in t && j in t && t[i].hash == t[j].hash ==> i == j
  }

  predicate IsActive(r: Row, user: string, tenant: Option<string>, now: int) {
    r.user == user && !r.revoked && r.expiresAt > now && (tenant.Some? ==> r.tenant == tenant.value)
  }

  function Active(t: Table, user: string, tenant: Option<string>, now: int): set<RowId> {
    set i | i in t && IsActive(t[i], user, tenant, now)
  }

  /** A row that `ORDER BY created_at LIMIT 1` may return among `ids`; none when there is nothing to return. */
  ghost predicate IsOldest(t: Table, ids: set<RowId>, oldest: Option<RowId>) {
    match oldest
    case None => ids == {}
    case Some(v) => v in ids && v in t && forall i :: i in ids && i in t ==> t[v].createdAt <= t[i].createdAt
  }

  /** The row holding a hash, if any. */
  ghost function RowOf(t: Table, h: Hash): (r: Option<RowId>)
    ensures r.Some? ==> r.value in t && t[r.value].hash == h
    ensures r.None? ==> h !in Hashes(t)
  {
    if exists i :: i in t && t[i].hash == h then
      var i :| i in t && t[i].hash == h;
      Some(i)
    else None
  }

  /** Neither revoked nor past its expiry: what validation and rotation both require. */
  predicate Usable(r: Row, now: int) { !r.revoked && now <= r.expiresAt }

  /** The token with hash `h` is accepted at `now`. */
  ghost predicate Validates(t: Table, h: Hash, now: int) {
    exists i :: i in t && t[i].hash == h && Usable(t[i], now)
  }

  // ----- what each request leaves behind -----

  function Revoke(t: Table, ids: set<RowId>): Table {
    map i | i in t :: if i in ids then t[i].(revoked := true) else t[i]
  }

  /** The three readings of the clock during a login. */
  datatype Clock = Clock(countedAt: int, pickedAt: int, createdAt: int)

  function Created(t: Table, max: int, req: CreateRequest, id: RowId, at: Clock, oldest: Option<RowId>): Table {
    if req.hash in Hashes(t) then t
    else
      var evicting := |Active(t, req.user, Some(req.tenant), at.countedAt)| >= max && oldest.Some?;
      var kept := if evicting then Revoke(t, {oldest.value}) else t;
      kept[id := Row(req.tenant, req.user, req.hash, false, req.expiresAt, at.createdAt)]
  }

  /** `UPDATE ... WHERE id = row`, refused by the unique constraint when another row holds the new hash. */
  predicate CanRewrite(t: Table, row: RowId, next: Hash) {
    row in t && forall i :: i in t && i != row ==> t[i].hash != next
  }

  function Rewritten(t: Table, row: RowId, next: Hash, expiresAt: int): Table
    requires row in t
  {
    t[row := t[row].(hash := next, expiresAt := expiresAt)]
  }

  ghost predicate RotationAccepted(t: Table, presented: Hash, next: Hash, now: int) {
    var r := RowOf(t, presented);
    r.Some? && Usable(t[r.value], now) && CanRewrite(t, r.value, next)
  }

  ghost function Rotated(t: Table, presented: Hash, next: Hash, expiresAt: int, now: int): Table {
    if RotationAccepted(t, presented, next, now)
    then Rewritten(t, RowOf(t, presented).value, next, expiresAt)
    else t
  }

  function HoldersOf(t: Table, h: Hash): set<RowId> { set i | i in t && t[i].hash == h }

  function RowsOfUser(t: Table, user: string): set<RowId> { set i | i in t && t[i].user == user && !t[i].revoked }

  lemma RowOfUnique(t: Table, i: RowId)
    requires UniqueHashes(t) && i in t
    ensures RowOf(t, t[i].hash) == Some(i)
  {
    assert t[i].hash in Hashes(t);
  }

  lemma ActiveShrinks(t: Table, user: string, tenant: string, now: int, later: int)
    requires now <= later
    ensures Active(t, user, Some(tenant), later) <= Active(t, user, Some(tenant), now)
  {
  }

  lemma {:induction false} SomeOldest(t: Table, ids: set<RowId>) returns (oldest: Option<RowId>)
    requires forall i :: i in ids ==> i in t
    ensures IsOldest(t, ids, oldest)
    decreases |ids|
  {
    if ids == {} { return None; }
    var i :| i in ids;
    oldest := SomeOldest(t, ids - {i});
    if oldest.None? || t[i].createdAt < t[oldest.value].createdAt {
      oldest := Some(i);
    }
  }

  /** Row by row: a login with a new hash adds its row and changes no other, but for the session it pushes out. */
  lemma CreatedRows(t: Table, max: int, req: CreateRequest, id: RowId, at: Clock, oldest: Option<RowId>)
    requires req.hash !in Hashes(t) && id !in t
    ensures var t' := Created(t, max, req, id, at, oldest);
            && t'.Keys == t.Keys + {id}
            && t'[id] == Row(req.tenant, req.user, req.hash, false, req.expiresAt, at.createdAt)
            && var full := |Active(t, req.user, Some(req.tenant), at.countedAt)| >= max;
               forall i :: i in t ==>
                 t'[i] == if full && oldest == Some(i) then t[i].(revoked := true) else t[i]
  {
  }

  lemma RowOfOnly(t: Table, h: Hash)
    requires UniqueHashes(t) && RowOf(t, h).Some?
    ensures forall i :: i in t && t[i].hash == h ==> i == RowOf(t, h).value
  {
  }

  // ----- the service -----

  /** Database access; each UPDATE or INSERT is one atomic statement. */
  class SessionRepository {
    var rows: Table

    constructor ()
      ensures rows == map[]
    {
      rows := map[];
    }

    method Create(req: CreateRequest, id: RowId, now: int) returns (r: Result<RowId>)
      requires id !in rows
      modifies this
      ensures req.hash in Hashes(old(rows)) ==> r == Err(500) && rows == old(rows)
      ensures req.hash !in Hashes(old(rows)) ==>
                r == Ok(id) && rows == old(rows)[id := Row(req.tenant, req.user, req.hash, false, req.expiresAt, now)]
    {
      if req.hash in Hashes(rows) {
        return Err(500);
      }
      rows := rows[id := Row(req.tenant, req.user, req.hash, false, req.expiresAt, now)];
      r := Ok(id);
    }

    method GetByTokenHash(h: Hash) returns (found: Option<RowId>)
      requires UniqueHashes(rows)
      ensures found == RowOf(rows, h)
    {
      if i :| i in rows && rows[i].hash == h {
        RowOfUnique(rows, i);
        found := Some(i);
      } else {
        found := None;
      }
    }

    method CountActiveByUser(user: string, tenant: Option<string>, now: int) returns (count: nat)
      ensures count == |Active(rows, user, tenant, now)|
      ensures count == |set i | i in rows && rows[i].user == user && !rows[i].revoked && now < rows[i].expiresAt
                                && (tenant.None? || rows[i].tenant == tenant.value)|
    {
      var active := set i | i in rows && rows[i].user == user && !rows[i].revoked && now < rows[i].expiresAt
                            && (tenant.None? || rows[i].tenant == tenant.value);
      assert active == Active(rows, user, tenant, now);
      count := |active|;
    }

    method GetOldestActiveByUser(user: string, tenant: Option<string>, now: int) returns (oldest: Option<RowId>)
      ensures IsOldest(rows, Active(rows, user, tenant, now), oldest)
    {
      var rest := Active(rows, user, tenant, now);
      ghost var seen: set<RowId> := {};
      oldest := None;
      while rest != {}
        invariant rest + seen == Active(rows, user, tenant, now)
        invariant IsOldest(rows, seen, oldest)
        decreases |rest|
      {
        var i :| i in rest;
        if oldest.None? || rows[i].createdAt < rows[oldest.value].createdAt {
          oldest := Some(i);
        }
        rest, seen := rest - {i}, seen + {i};
      }
      assert seen == Active(rows, user, tenant, now);
    }

    method RevokeByTokenHash(h: Hash)
      modifies this
      ensures rows == Revoke(old(rows), HoldersOf(old(rows), h))
      ensures rows == map i | i in old(rows) ::
                        if old(rows)[i].hash == h then old(rows)[i].(revoked := true) else old(rows)[i]
    {
      rows := map i | i in rows :: if rows[i].hash == h then rows[i].(revoked := true) else rows[i];
    }

    method RevokeById(id: RowId)
      modifies this
      ensures rows == Revoke(old(rows), {id})
      ensures rows == if id in old(rows) then old(rows)[id := old(rows)[id].(revoked := true)] else old(rows)
    {
      if id in rows {
        rows := rows[id := rows[id].(revoked := true)];
      }
    }

    method RevokeAllByUser(user: string) returns (count: nat)
      modifies this
      ensures rows == Revoke(old(rows), RowsOfUser(old(rows), user))
      ensures rows == map i | i in old(rows) ::
                        if old(rows)[i].user == user then old(rows)[i].(revoked := true) else old(rows)[i]
      ensures count == |set i | i in old(rows) && rows[i] != old(rows)[i]|
    {
      count := |RowsOfUser(rows, user)|;
      rows := map i | i in rows ::
        if rows[i].user == user && !rows[i].revoked then rows[i].(revoked := true) else rows[i];
      assert RowsOfUser(old(rows), user) == set i | i in old(rows) && rows[i] != old(rows)[i];
    }

    method UpdateTokenHash(id: RowId, next: Hash, expiresAt: int) returns (ok: bool)
      requires id in rows
      modifies this
      ensures ok == CanRewrite(old(rows), id, next)
      ensures rows == if ok then Rewritten(old(rows), id, next, expiresAt) else old(rows)
    {
      ok := forall i :: i in rows && i != id ==> rows[i].hash != next;
      if ok {
        rows := rows[id := rows[id].(hash := next, expiresAt := expiresAt)];
      }
    }
  }

  /** The session service, one request at a time; a request that fails leaves the table as it found it. */
  class SessionService {
    const repo: SessionRepository
    const maxSessionsPerUser: int

    ghost predicate Valid() reads this, repo { UniqueHashes(repo.rows) }

    constructor (max: int)
      ensures Valid() && fresh(repo) && repo.rows == map[] && maxSessionsPerUser == max
    {
      repo := new SessionRepository();
      maxSessionsPerUser := max;
    }

    method CreateSession(req: CreateRequest, id: RowId, at: Clock)
      returns (r: Result<RowId>, ghost oldest: Option<RowId>)
      requires Valid() && id !in repo.rows
      modifies repo
      ensures Valid()
      ensures IsOldest(old(repo.rows), Active(old(repo.rows), req.user, Some(req.tenant), at.pickedAt), oldest)
      ensures repo.rows == Created(old(repo.rows), maxSessionsPerUser, req, id, at, oldest)
      ensures r == if req.hash in Hashes(old(repo.rows)) then Err(500) else Ok(id)
      ensures r.Err? ==> repo.rows == old(repo.rows)
    {
      var snapshot := repo.rows;
      var activeCount := repo.CountActiveByUser(req.user, Some(req.tenant), at.countedAt);
      oldest := SomeOldest(repo.rows, Active(repo.rows, req.user, Some(req.tenant), at.pickedAt));
      if activeCount >= maxSessionsPerUser {
        var found := repo.GetOldestActiveByUser(req.user, Some(req.tenant), at.pickedAt);
        oldest := found;
        if found.Some? {
          repo.RevokeById(found.value);
        }
      }
      assert Hashes(repo.rows) == Hashes(snapshot) by {
        forall h | h in Hashes(snapshot) ensures h in Hashes(repo.rows) {
          var i :| i in snapshot && snapshot[i].hash == h;
          assert repo.rows[i].hash == h;
        }
      }
      r := repo.Create(req, id, at.createdAt);
      if r.Err? {
        repo.rows := snapshot;
      } else {
        forall i | i in snapshot ensures snapshot[i].hash != req.hash {
          assert snapshot[i].hash in Hashes(snapshot);
        }
      }
    }

    method ValidateSession(h: Hash, now: int) returns (session: Option<RowId>)
      requires Valid()
      ensures session.Some? <==> Validates(repo.rows, h, now)
      ensures session.Some? ==>
                var i := session.value;
                i in repo.rows && repo.rows[i].hash == h && !repo.rows[i].revoked && now <= repo.rows[i].expiresAt
      ensures session.None? ==>
                forall i :: i in repo.rows && repo.rows[i].hash == h ==>
                  repo.rows[i].revoked || repo.rows[i].expiresAt < now
    {
      var found := repo.GetByTokenHash(h);
      if found.None? {
        forall i | i in repo.rows ensures repo.rows[i].hash != h { assert repo.rows[i].hash in Hashes(repo.rows); }
        return None;
      }
      RowOfOnly(repo.rows, h);
      var row := repo.rows[found.value];
      if row.revoked { return None; }
      if row.expiresAt < now { return None; }
      session := found;
    }

    method RevokeSession(h: Hash)
      requires Valid()
      modifies repo
      ensures Valid() && repo.rows == Revoke(old(repo.rows), HoldersOf(old(repo.rows), h))
      ensures repo.rows == map i | i in old(repo.rows) ::
                             if old(repo.rows)[i].hash == h then old(repo.rows)[i].(revoked := true)
                             else old(repo.rows)[i]
    {
      repo.RevokeByTokenHash(h);
    }

    method RevokeSessionById(id: RowId, user: string) returns (status: int)
      requires Valid()
      modifies repo
      ensures Valid()
      ensures id !in old(repo.rows) ==> status == 404
      ensures id in old(repo.rows) && old(repo.rows)[id].user != user ==> status == 403
      ensures id in old(repo.rows) && old(repo.rows)[id].user == user ==>
                && status == 200
                && repo.rows == Revoke(old(repo.rows), {id})
                && repo.rows == old(repo.rows)[id := old(repo.rows)[id].(revoked := true)]
      ensures status != 200 ==> repo.rows == old(repo.rows)
    {
      if id !in repo.rows { return 404; }
      if repo.rows[id].user != user { return 403; }
      repo.RevokeById(id);
      status := 200;
    }

    method RevokeAllSessions(user: string) returns (count: nat)
      requires Valid()
      modifies repo
      ensures Valid() && repo.rows == Revoke(old(repo.rows), RowsOfUser(old(repo.rows), user))
      ensures repo.rows == map i | i in old(repo.rows) ::
                             if old(repo.rows)[i].user == user then old(repo.rows)[i].(revoked := true)
                             else old(repo.rows)[i]
      ensures count == |set i | i in old(repo.rows) && repo.rows[i] != old(repo.rows)[i]|
    {
      count := repo.RevokeAllByUser(user);
    }

    method RotateSession(presented: Hash, next: Hash, expiresAt: int, now: int) returns (r: Result<RowId>)
      requires Valid()
      modifies repo
      ensures Valid()
      ensures r.Ok? <==> RotationAccepted(old(repo.rows), presented, next, now)
      ensures r == Err(401) <==> !Validates(old(repo.rows), presented, now)
      ensures r.Err? ==> r.status in {401, 500} && repo.rows == old(repo.rows)
      ensures r.Ok? ==>
                && r.value in old(repo.rows) && old(repo.rows)[r.value].hash == presented
                && repo.rows ==
                   old(repo.rows)[r.value := old(repo.rows)[r.value].(hash := next, expiresAt := expiresAt)]
      ensures repo.rows == Rotated(old(repo.rows), presented, next, expiresAt, now)
    {
      var found := repo.GetByTokenHash(presented);
      if found.None? {
        forall i | i in repo.rows ensures repo.rows[i].hash != presented {
          assert repo.rows[i].hash in Hashes(repo.rows);
        }
        return Err(401);
      }
      RowOfOnly(repo.rows, presented);
      if repo.rows[found.value].revoked { return Err(401); }
      if repo.rows[found.value].expiresAt < now { return Err(401); }
      var ok := repo.UpdateTokenHash(found.value, next, expiresAt);
      if !ok { return Err(500); }
      r := Ok(found.value);
    }
  }
}
