/**
 One-time tokens: `{user_id}.{purpose}.{timestamp}.{signature}`, printed and parsed.

 `mac` stands for the keyed signature of a message; all that is used of it is that it prints without dots.
 */
module TokenFormat {
  import opened Prelude

  type Mac = string -> string

  predicate DotFree(s: string) { '.' !in s }

  ghost predicate PrintsWithoutDots(mac: Mac) { forall m :: DotFree(mac(m)) }

  // ----- splitting and joining -----

  function Split(s: string): (parts: seq<string>)
    ensures |parts| > 0
  {
    if s == "" then [""]
    else
      var rest := Split(s[1..]);
      if s[0] == '.' then [""] + rest else [[s[0]] + rest[0]] + rest[1..]
  }

  function Join(parts: seq<string>): string
    requires |parts| > 0
  {
    if |parts| == 1 then parts[0] else parts[0] + "." + Join(parts[1..])
  }

  lemma {:induction false} SplitDotFree(s: string)
    ensures DotFree(s) <==> |Split(s)| == 1
    ensures DotFree(s) ==> Split(s) == [s]
  {
    if s != "" {
      SplitDotFree(s[1..]);
      assert s == [s[0]] + s[1..];
    }
  }

  lemma {:induction false} SplitAtDot(a: string, b: string)
    ensures Split(a + "." + b) == Split(a) + Split(b)
  {
    if a == "" {
      assert (a + "." + b)[1..] == b;
    } else {
      assert (a + "." + b)[1..] == a[1..] + "." + b;
      SplitAtDot(a[1..], b);
    }
  }

  /** Joining undoes splitting, for every string; the parts never contain a dot. */
  lemma {:induction false} JoinUndoesSplit(s: string)
    ensures Join(Split(s)) == s && forall i :: 0 <= i < |Split(s)| ==> DotFree(Split(s)[i])
  {
    if s != "" {
      JoinUndoesSplit(s[1..]);
      assert s == [s[0]] + s[1..];
      var rest := Split(s[1..]);
      if s[0] == '.' {
        assert Split(s)[1..] == rest;
      } else if |rest| > 1 {
        assert Split(s)[1..] == rest[1..];
      }
    }
  }

  /** Splitting undoes joining, for dot-free parts. */
  lemma {:induction false} SplitUndoesJoin(parts: seq<string>)
    requires |parts| > 0 && forall i :: 0 <= i < |parts| ==> DotFree(parts[i])
    ensures Split(Join(parts)) == parts
  {
    SplitDotFree(parts[0]);
    if |parts| > 1 {
      SplitAtDot(parts[0], Join(parts[1..]));
      SplitUndoesJoin(parts[1..]);
    }
  }

  // ----- timestamps -----

  function Digits(n: nat): (s: string)
    ensures |s| > 0 && forall c :: c in s ==> '0' <= c <= '9'
  {
    var last := [('0' as int + n % 10) as char];
    if n < 10 then last else Digits(n / 10) + last
  }

  lemma DigitsAreDotFree(n: nat)
    ensures DotFree(Digits(n))
  {
  }

  /** The number a decimal text stands for. */
  function Number(s: string): int {
    if s == "" then 0 else 10 * Number(s[..|s| - 1]) + (s[|s| - 1] as int - '0' as int)
  }

  /** A timestamp prints in decimal, without leading zeros. */
  lemma {:induction false} DigitsAreDecimal(n: nat)
    ensures Number(Digits(n)) == n && (n > 0 ==> Digits(n)[0] != '0')
  {
    var s := Digits(n);
    if n >= 10 {
      DigitsAreDecimal(n / 10);
      assert s[..|s| - 1] == Digits(n / 10);
    } else {
      assert s[..|s| - 1] == "";
    }
  }

  lemma DigitsInjective(m: nat, n: nat)
    requires Digits(m) == Digits(n)
    ensures m == n
  {
    DigitsAreDecimal(m);
    DigitsAreDecimal(n);
  }

  // ----- tokens -----

  function Message(user: string, purpose: string, timestamp: string): string {
    user + "." + purpose + "." + timestamp
  }

  function Generate(mac: Mac, user: string, purpose: string, second: nat): string {
    var message := Message(user, purpose, Digits(second));
    message + "." + mac(message)
  }

  /** The user a token was signed for, or None when it is refused. */
  function Verify(mac: Mac, raw: string, purpose: string): Option<string> {
    var parts := Split(raw);
    if |parts| != 4 then None
    else if parts[1] != purpose then None
    else if mac(Message(parts[0], parts[1], parts[2])) != parts[3] then None
    else Some(parts[0])
  }

  lemma SplitGenerated(mac: Mac, user: string, purpose: string, second: nat)
    requires PrintsWithoutDots(mac) && DotFree(purpose)
    ensures Split(Generate(mac, user, purpose, second)) ==
            Split(user) + [purpose, Digits(second), mac(Message(user, purpose, Digits(second)))]
  {
    var ts := Digits(second);
    var message := Message(user, purpose, ts);
    SplitAtDot(user, purpose);
    SplitAtDot(user + "." + purpose, ts);
    SplitAtDot(message, mac(message));
    SplitDotFree(purpose);
    DigitsAreDotFree(second);
    SplitDotFree(ts);
    SplitDotFree(mac(message));
  }

  /** A token verifies as its own user exactly when the user id contains no dot; otherwise it is refused. */
  lemma RoundTripIff(mac: Mac, user: string, purpose: string, second: nat)
    requires PrintsWithoutDots(mac) && DotFree(purpose)
    ensures Verify(mac, Generate(mac, user, purpose, second), purpose) == Some(user) <==> DotFree(user)
    ensures Verify(mac, Generate(mac, user, purpose, second), purpose) == None <==> !DotFree(user)
  {
    SplitGenerated(mac, user, purpose, second);
    SplitDotFree(user);
  }

  /** Any accepted string is `u.p.ts.mac(u.p.ts)` for dot-free parts, and they are its only reading. */
  lemma AcceptedShape(mac: Mac, raw: string, purpose: string) returns (timestamp: string)
    requires Verify(mac, raw, purpose).Some?
    ensures var user := Verify(mac, raw, purpose).value;
            && DotFree(user) && DotFree(purpose) && DotFree(timestamp)
            && raw == Message(user, purpose, timestamp) + "." + mac(Message(user, purpose, timestamp))
            && Split(raw) == [user, purpose, timestamp, mac(Message(user, purpose, timestamp))]
  {
    var parts := Split(raw);
    timestamp := parts[2];
    JoinUndoesSplit(raw);
    assert parts[1..][1..] == parts[2..] && parts[2..][1..] == [parts[3]];
    assert Join(parts[2..]) == parts[2] + "." + parts[3];
    assert Join(parts[1..]) == parts[1] + "." + Join(parts[2..]);
  }

  /** No string is accepted for two purposes or for two users. */
  lemma OnePurposeOneUser(mac: Mac, raw: string, purpose: string, purpose': string)
    requires Verify(mac, raw, purpose).Some? && Verify(mac, raw, purpose').Some?
    ensures purpose == purpose' && Verify(mac, raw, purpose) == Verify(mac, raw, purpose')
  {
  }

  /** Tokens for different users, purposes or seconds are different strings. */
  lemma GenerateInjective(mac: Mac, u: string, p: string, s: nat, u': string, p': string, s': nat)
    requires PrintsWithoutDots(mac) && DotFree(u) && DotFree(p) && DotFree(u') && DotFree(p')
    requires Generate(mac, u, p, s) == Generate(mac, u', p', s')
    ensures u == u' && p == p' && s == s'
  {
    SplitGenerated(mac, u, p, s);
    SplitGenerated(mac, u', p', s');
    SplitDotFree(u);
    SplitDotFree(u');
    var parts := Split(Generate(mac, u, p, s));
    assert parts[0] == u == u' && parts[1] == p == p' && parts[2] == Digits(s) == Digits(s');
    DigitsInjective(s, s');
  }
}
