/** Login lockout: failure counters with a sliding expiry, per account and per address. */
module BruteForce {
  import opened Prelude

  datatype Key = EmailKey(tenant: string, email: string) | IpKey(tenant: string, ip: string)

  /** A Redis counter; INCR creates one without an expiry. */
  datatype Counter = Counter(count: Positive, expiresAt: Option<int>)

  type Counters = map<Key, Counter>

  datatype Policy = Policy(maxAttempts: nat, lockout: nat)

  predicate Expired(c: Counter, now: int) { c.expiresAt.Some? && c.expiresAt.value <= now }

  predicate Stored(c: Counters, k: Key, now: int) { k in c && !Expired(c[k], now) }

  function Live(c: Counters, k: Key, now: int): nat { if Stored(c, k, now) then c[k].count else 0 }

  /** What is left of a key: -2 when there is none, -1 when it never expires. */
  function TimeToLive(c: Counters, k: Key, now: int): int {
    if !Stored(c, k, now) then -2
    else if c[k].expiresAt.None? then -1
    else c[k].expiresAt.value - now
  }

  /** An address may fail three times as often as an account. */
  function Threshold(p: Policy, k: Key): nat { if k.EmailKey? then p.maxAttempts else p.maxAttempts * 3 }

  /** A missing counter never locks, not even at a threshold of zero. */
  predicate Locked(p: Policy, c: Counters, k: Key, now: int) {
    Stored(c, k, now) && c[k].count >= Threshold(p, k)
  }

  /** How many failures it takes: a stored counter is at least one, so a threshold of zero acts as one. */
  function Tolerated(p: Policy, k: Key): nat { if Threshold(p, k) == 0 then 1 else Threshold(p, k) }

  function Bumped(p: Policy, c: Counters, k: Key, now: int): Counters {
    c[k := Counter(Live(c, k, now) + 1, Some(now + p.lockout))]
  }

  /** INCR and EXPIRE on both keys, as one atomic pipeline. */
  function Recorded(p: Policy, c: Counters, email: Key, ip: Key, now: int): Counters {
    Bumped(p, Bumped(p, c, email, now), ip, now)
  }

  class LoginGuard {
    var counters: Counters
    const policy: Policy
    const lower: string -> string

    constructor (policy: Policy, lower: string -> string)
      ensures counters == map[] && this.policy == policy && this.lower == lower
    {
      this.policy, this.lower := policy, lower;
      counters := map[];
    }

    /** Refuses with the seconds left to wait: the account's counter is read first, then the address's. */
    method CheckBruteForce(tenant: string, email: string, ip: string, now: int) returns (retryAfter: Option<int>)
      ensures retryAfter.Some? <==> Locked(policy, counters, EmailKey(tenant, lower(email)), now)
                                    || Locked(policy, counters, IpKey(tenant, ip), now)
      ensures retryAfter.Some? ==>
                var k := if Locked(policy, counters, EmailKey(tenant, lower(email)), now)
                         then EmailKey(tenant, lower(email)) else IpKey(tenant, ip);
                && Stored(counters, k, now)
                && retryAfter.value == match counters[k].expiresAt case None => -1 case Some(at) => at - now
      ensures retryAfter.Some? <==>
                || (Stored(counters, EmailKey(tenant, lower(email)), now)
                    && counters[EmailKey(tenant, lower(email))].count >= policy.maxAttempts)
                || (Stored(counters, IpKey(tenant, ip), now)
                    && counters[IpKey(tenant, ip)].count >= 3 * policy.maxAttempts)
    {
      var emailKey, ipKey := EmailKey(tenant, lower(email)), IpKey(tenant, ip);
      if Stored(counters, emailKey, now) && counters[emailKey].count >= policy.maxAttempts {
        return Some(TimeToLive(counters, emailKey, now));
      }
      if Stored(counters, ipKey, now) && counters[ipKey].count >= policy.maxAttempts * 3 {
        return Some(TimeToLive(counters, ipKey, now));
      }
      retryAfter := None;
    }

    method Incr(k: Key, now: int)
      modifies this
      ensures k in counters && counters == old(counters)[k := counters[k]]
      ensures counters[k].count == Live(old(counters), k, now) + 1 && !Expired(counters[k], now)
    {
      if Stored(counters, k, now) {
        counters := counters[k := counters[k].(count := counters[k].count + 1)];
      } else {
        counters := counters[k := Counter(1, None)];
      }
    }

    method Expire(k: Key, duration: int, now: int)
      requires k in counters
      modifies this
      ensures counters == old(counters)[k := Counter(old(counters)[k].count, Some(now + duration))]
    {
      counters := counters[k := counters[k].(expiresAt := Some(now + duration))];
    }

    method RecordFailedAttempt(tenant: string, email: string, ip: string, now: int)
      modifies this
      ensures counters == Recorded(policy, old(counters), EmailKey(tenant, lower(email)), IpKey(tenant, ip), now)
      ensures var email', ip', before := EmailKey(tenant, lower(email)), IpKey(tenant, ip), old(counters);
              counters == before[email' := Counter(Live(before, email', now) + 1, Some(now + policy.lockout))]
                                [ip' := Counter(Live(before, ip', now) + 1, Some(now + policy.lockout))]
    {
      var emailKey, ipKey := EmailKey(tenant, lower(email)), IpKey(tenant, ip);
      Incr(emailKey, now);
      Expire(emailKey, policy.lockout, now);
      Incr(ipKey, now);
      Expire(ipKey, policy.lockout, now);
    }

    method GetFailedAttemptsCount(tenant: string, email: string, now: int) returns (count: nat)
      ensures count == Live(counters, EmailKey(tenant, lower(email)), now)
    {
      count := Live(counters, EmailKey(tenant, lower(email)), now);
    }

    method ResetBruteForce(tenant: string, email: string, ip: string)
      modifies this
      ensures counters == old(counters) - {EmailKey(tenant, lower(email)), IpKey(tenant, ip)}
    {
      counters := counters - {EmailKey(tenant, lower(email)), IpKey(tenant, ip)};
    }
  }
}
