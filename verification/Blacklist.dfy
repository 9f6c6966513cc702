/** Access tokens: decoding, the revocation blacklist, and what a revocation covers. */
module Blacklist {
  import opened Prelude

  /** What the checks of a signed token can see. `exp` is in whole seconds (RFC 7519, section 4.1.4). */
  datatype Token = Token(
    signed: bool, issuedByUs: bool, audienceKnown: bool, isAccess: bool,
    jti: Option<string>, subject: Option<string>, exp: nat)

  /** `cutOff` is the decoder's own reading of `exp`: the first instant at which it calls the token expired. */
  datatype Decoder = Decoder(cutOff: nat -> int)

  // ----- decoding -----

  datatype DecodeError = ExpiredSignature | OtherError

  /** One attempt of the library: signature, then expiry, issuer and, unless switched off, audience. */
  function Attempt(d: Decoder, t: Token, checkAudience: bool, now: int): Option<DecodeError> {
    if !t.signed then Some(OtherError)
    else if d.cutOff(t.exp) <= now then Some(ExpiredSignature)
    else if !t.issuedByUs || (checkAudience && !t.audienceKnown) then Some(OtherError)
    else None
  }

  /** Decoded at `now`: a second attempt without the audience follows every error but expiry. */
  function Decodes(d: Decoder, t: Token, now: int): bool {
    var first := Attempt(d, t, true, now);
    var failed := match first
      case None => false
      case Some(ExpiredSignature) => true
      case Some(OtherError) => Attempt(d, t, false, now).Some?;
    !failed && t.isAccess
  }

  /** The two attempts together never look at the audience. */
  lemma AudienceNeverMatters(d: Decoder, t: Token, now: int)
    ensures Decodes(d, t, now) <==> t.signed && t.issuedByUs && t.isAccess && now < d.cutOff(t.exp)
  {
  }

  // ----- the blacklist -----

  /** Redis: when each blacklisted token id stops being listed. */
  type Entries = map<string, int>

  function Listed(e: Entries, jti: string, now: int): bool { jti in e && now < e[jti] }

  predicate Present(s: Option<string>) { s.Some? && s.value != "" }

  /** Whole seconds of life left, rounded toward zero and never negative. */
  function SecondsLeft(exp: nat, now: int): nat {
    if now < exp * SECOND then (exp * SECOND - now) / SECOND else 0
  }

  function Verifies(d: Decoder, e: Entries, t: Token, now: int): bool {
    Decodes(d, t, now) && Present(t.jti) && Present(t.subject) && !Listed(e, t.jti.value, now)
  }

  function Revoked(d: Decoder, e: Entries, t: Token, now: int): Entries {
    if Decodes(d, t, now) && Present(t.jti) && t.exp > 0 && SecondsLeft(t.exp, now) > 0
    then e[t.jti.value := now + SecondsLeft(t.exp, now) * SECOND]
    else e
  }

  /** The revocation writes an entry: the token decodes and has a second or more to live. */
  predicate Effective(d: Decoder, t: Token, at: int) {
    Decodes(d, t, at) && Present(t.jti) && t.exp > 0 && t.exp * SECOND - at >= SECOND
  }

  /** The blacklist entry of a token with at least a second to live ends within its last second. */
  lemma EntryEndsInLastSecond(d: Decoder, e: Entries, t: Token, now: int)
    requires Effective(d, t, now)
    ensures t.jti.value in Revoked(d, e, t, now)
    ensures (t.exp - 1) * SECOND < Revoked(d, e, t, now)[t.jti.value] <= t.exp * SECOND
  {
    var left := t.exp * SECOND - now;
    assert left == SecondsLeft(t.exp, now) * SECOND + left % SECOND;
    assert SecondsLeft(t.exp, now) > 0;
  }

  // ----- revoked any number of times -----

  datatype Revocation = Revocation(token: Token, at: int)

  function After(d: Decoder, log: seq<Revocation>, n: nat): Entries
    requires n <= |log|
  {
    if n == 0 then map[] else Revoked(d, After(d, log, n - 1), log[n - 1].token, log[n - 1].at)
  }

  /** Token ids are unique: revocations of the same id are of the same token. */
  ghost predicate UniqueIds(log: seq<Revocation>, t: Token) {
    forall i :: 0 <= i < |log| && log[i].token.jti == t.jti ==> log[i].token == t
  }

  lemma {:induction false} EntryAlwaysEndsInLastSecond(d: Decoder, log: seq<Revocation>, n: nat, t: Token)
    requires n <= |log| && UniqueIds(log, t) && Present(t.jti)
    ensures t.jti.value in After(d, log, n) <==>
            exists i :: 0 <= i < n && log[i].token == t && Effective(d, t, log[i].at)
    ensures t.jti.value in After(d, log, n) ==> (t.exp - 1) * SECOND < After(d, log, n)[t.jti.value] <= t.exp * SECOND
  {
    if n > 0 {
      EntryAlwaysEndsInLastSecond(d, log, n - 1, t);
      var r, before := log[n - 1], After(d, log, n - 1);
      if r.token.jti == t.jti {
        assert r.token == t;
        if Effective(d, t, r.at) {
          EntryEndsInLastSecond(d, before, t, r.at);
        } else {
          assert After(d, log, n) == before;
        }
      } else {
        assert t.jti.value in After(d, log, n) <==> t.jti.value in before;
      }
    }
  }

  /** Coverage: once a token has been revoked with a second or more to live, it verifies again exactly in the
      tail between its entry's end, which lies in its last second, and the decoder's own cut-off. */
  lemma RevokedUntilLastSecond(d: Decoder, log: seq<Revocation>, n: nat, t: Token, now: int)
    requires n <= |log| && UniqueIds(log, t) && Present(t.jti)
    requires exists i :: 0 <= i < n && log[i].token == t && Effective(d, t, log[i].at)
    ensures t.jti.value in After(d, log, n)
    ensures var end := After(d, log, n)[t.jti.value];
            && (t.exp - 1) * SECOND < end <= t.exp * SECOND
            && (Verifies(d, After(d, log, n), t, now) <==> Decodes(d, t, now) && Present(t.subject) && end <= now)
    ensures now <= (t.exp - 1) * SECOND ==> !Verifies(d, After(d, log, n), t, now)
  {
    EntryAlwaysEndsInLastSecond(d, log, n, t);
  }

  /** One of ours: signed, unexpired, an access token with an id and a subject. */
  predicate DecodesWithIds(d: Decoder, t: Token, now: int) {
    && t.signed && t.issuedByUs && t.isAccess && now < d.cutOff(t.exp)
    && t.jti.Some? && t.jti.value != "" && t.subject.Some? && t.subject.value != ""
  }

  /** A token that was never revoked in time verifies exactly when it is one of ours. */
  lemma UnrevokedVerifiesIff(d: Decoder, log: seq<Revocation>, n: nat, t: Token, now: int)
    requires n <= |log| && UniqueIds(log, t)
    requires forall i :: 0 <= i < n && log[i].token == t ==> !Effective(d, t, log[i].at)
    ensures Verifies(d, After(d, log, n), t, now) <==> DecodesWithIds(d, t, now)
  {
    if Present(t.jti) { EntryAlwaysEndsInLastSecond(d, log, n, t); }
  }

  /** A revocation of a valid token takes hold at once if and only if the token has a second or more to live;
      otherwise the token goes on verifying until the decoder's own cut-off. */
  lemma RevocationTakesHoldIff(d: Decoder, e: Entries, t: Token, at: int)
    requires Verifies(d, e, t, at)
    ensures Verifies(d, Revoked(d, e, t, at), t, at) <==> t.exp * SECOND - at < SECOND || t.exp == 0
    ensures Verifies(d, Revoked(d, e, t, at), t, at) ==>
              forall now :: now >= at ==> (Verifies(d, Revoked(d, e, t, at), t, now) <==> now < d.cutOff(t.exp))
  {
    AudienceNeverMatters(d, t, at);
    if Effective(d, t, at) {
      assert SecondsLeft(t.exp, at) * SECOND > 0 by { EntryEndsInLastSecond(d, e, t, at); }
    } else {
      assert Revoked(d, e, t, at) == e;
    }
  }

  // ----- the service -----

  class TokenService {
    var entries: Entries
    const decoder: Decoder
    ghost var log: seq<Revocation>

    ghost predicate Valid() reads this { entries == After(decoder, log, |log|) }

    constructor (decoder: Decoder)
      ensures Valid() && log == [] && this.decoder == decoder
    {
      this.decoder := decoder;
      entries, log := map[], [];
    }

    method DecodeAccessToken(t: Token, now: int) returns (ok: bool)
      ensures ok == Decodes(decoder, t, now)
    {
      var error := Attempt(decoder, t, true, now);
      if error == Some(ExpiredSignature) { return false; }
      if error == Some(OtherError) {
        error := Attempt(decoder, t, false, now);
        if error.Some? { return false; }
      }
      if !t.isAccess { return false; }
      ok := true;
    }

    method Verify(t: Token, now: int) returns (valid: bool)
      requires Valid()
      ensures valid == Verifies(decoder, entries, t, now)
      ensures valid <==>
              && DecodesWithIds(decoder, t, now)
              && (t.jti.value in entries ==> entries[t.jti.value] <= now)
      ensures UniqueIds(log, t)
              && (forall i :: 0 <= i < |log| && log[i].token == t ==> !Effective(decoder, t, log[i].at))
              ==> (valid <==> DecodesWithIds(decoder, t, now))
    {
      AudienceNeverMatters(decoder, t, now);
      if UniqueIds(log, t) && forall i :: 0 <= i < |log| && log[i].token == t ==> !Effective(decoder, t, log[i].at) {
        UnrevokedVerifiesIff(decoder, log, |log|, t, now);
      }
      var ok := DecodeAccessToken(t, now);
      if !ok { return false; }
      if !Present(t.jti) || !Present(t.subject) { return false; }
      if t.jti.value in entries && now < entries[t.jti.value] { return false; }
      valid := true;
    }

    method Revoke(t: Token, now: int)
      requires Valid()
      modifies this
      ensures Valid() && log == old(log) + [Revocation(t, now)]
      ensures entries == Revoked(decoder, old(entries), t, now)
      ensures entries == if Effective(decoder, t, now)
                         then old(entries)[t.jti.value := now + (t.exp * SECOND - now) / SECOND * SECOND]
                         else old(entries)
    {
      var ok := DecodeAccessToken(t, now);
      if ok && Present(t.jti) && t.exp > 0 {
        var ttl := SecondsLeft(t.exp, now);
        if ttl > 0 {
          entries := entries[t.jti.value := now + ttl * SECOND];
        }
      }
      AfterPrefix(decoder, log, [Revocation(t, now)], |log|);
      log := log + [Revocation(t, now)];
    }
  }

  lemma {:induction false} AfterPrefix(d: Decoder, log: seq<Revocation>, more: seq<Revocation>, n: nat)
    requires n <= |log|
    ensures After(d, log + more, n) == After(d, log, n)
  {
    if n > 0 {
      AfterPrefix(d, log, more, n - 1);
    }
  }
}
