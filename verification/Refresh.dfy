/** auth-service's `refresh`: validate, mint new tokens, rotate. The answer to the rotation is not looked at. */
module Refresh {
  import opened Prelude
  import opened Sessions

  /** One uninterrupted refresh: validated at `validatedAt`, rotated at `rotatedAt`. */
  method RefreshTokens(sessions: SessionService, presented: Hash, next: Hash, expiresAt: int, profileExists: bool,
                       validatedAt: int, rotatedAt: int)
    returns (status: int)
    requires sessions.Valid()
    modifies sessions.repo
    ensures sessions.Valid()
    ensures status == if !Validates(old(sessions.repo.rows), presented, validatedAt) then 401
                      else if profileExists then 200 else 404
    ensures status == 200 ==>
              sessions.repo.rows == Rotated(old(sessions.repo.rows), presented, next, expiresAt, rotatedAt)
    ensures status != 200 ==> sessions.repo.rows == old(sessions.repo.rows)
  {
    var session := sessions.ValidateSession(presented, validatedAt);
    if session.None? { return 401; }
    if !profileExists { return 404; }
    var ignored := sessions.RotateSession(presented, next, expiresAt, rotatedAt);
    status := 200;
  }

  /** What the table is at the time of the rotation decides, whatever other requests did to it since the validation:
      the new token validates if and only if the presented one still did; either way the presented one does not
      validate from then on. */
  lemma RefreshHandsOverIff(t: Table, presented: Hash, next: Hash, expiresAt: int, rotatedAt: int, later: int)
    requires UniqueHashes(t) && next !in Hashes(t) && rotatedAt <= later <= expiresAt
    ensures var t' := Rotated(t, presented, next, expiresAt, rotatedAt);
            && (Validates(t', next, later) <==> Validates(t, presented, rotatedAt))
            && !Validates(t', presented, later)
  {
    forall j | j in t ensures t[j].hash != next { assert t[j].hash in Hashes(t); }
    forall j | j in t && t[j].hash == presented ensures RowOf(t, presented) == Some(j) { RowOfUnique(t, j); }
    var t' := Rotated(t, presented, next, expiresAt, rotatedAt);
    if Validates(t, presented, rotatedAt) {
      var i := RowOf(t, presented).value;
      assert t'[i].hash == next && Usable(t'[i], later);
    }
  }

  /** Uninterrupted, a refresh that answered 200 hands over exactly when the session had not expired by the time of
      the rotation. */
  lemma UninterruptedHandsOverIff(
      t: Table, presented: Hash, next: Hash, expiresAt: int, validatedAt: int, rotatedAt: int, later: int)
    requires UniqueHashes(t) && Validates(t, presented, validatedAt) && next !in Hashes(t)
    requires validatedAt <= rotatedAt <= later <= expiresAt
    ensures RowOf(t, presented).Some?
    ensures var t' := Rotated(t, presented, next, expiresAt, rotatedAt);
            && (Validates(t', next, later) <==> rotatedAt <= t[RowOf(t, presented).value].expiresAt)
            && !Validates(t', presented, later)
  {
    var i :| i in t && t[i].hash == presented && Usable(t[i], validatedAt);
    RowOfUnique(t, i);
    RefreshHandsOverIff(t, presented, next, expiresAt, rotatedAt, later);
  }

  /** A logout between the two calls: the answer is 200 and neither token validates, however long the session had. */
  lemma LogoutInBetween(
      t: Table, presented: Hash, next: Hash, expiresAt: int, validatedAt: int, rotatedAt: int, later: int)
    requires UniqueHashes(t) && Validates(t, presented, validatedAt) && next !in Hashes(t)
    requires validatedAt <= rotatedAt <= later <= expiresAt
    ensures var t' := Rotated(Revoke(t, HoldersOf(t, presented)), presented, next, expiresAt, rotatedAt);
            !Validates(t', next, later) && !Validates(t', presented, later)
  {
    var out := Revoke(t, HoldersOf(t, presented));
    forall h | h in Hashes(out) ensures h in Hashes(t) {
      var i :| i in out && out[i].hash == h;
      assert t[i].hash == h;
    }
    RefreshHandsOverIff(out, presented, next, expiresAt, rotatedAt, later);
  }
}
