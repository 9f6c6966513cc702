/** The gateway's CORS decision: the preflight answer and the answer to the request that follows it. */
module Cors {
  import opened Prelude
  import opened Origins

  const BLANKS: set<char> := {' ', '\t', '\n', '\r'}

  function StripRight(s: string, blanks: set<char>): string {
    if |s| > 0 && s[|s| - 1] in blanks then StripRight(s[..|s| - 1], blanks) else s
  }

  function StripLeft(s: string, blanks: set<char>): string {
    if |s| > 0 && s[0] in blanks then StripLeft(s[1..], blanks) else s
  }

  /** The gateway's normal form of an origin. */
  function Normalize(origin: string): string { StripRight(origin, {'/'}) }

  /** The application service's own, used at preflight only. */
  function Lookup(origin: string): string { Normalize(StripRight(StripLeft(origin, BLANKS), BLANKS)) }

  predicate IsStatic(statics: set<string>, origin: string) {
    exists s :: s in statics && Normalize(origin) == Normalize(s)
  }

  function ResolveByOrigin(reg: Registry, origin: string): set<string> {
    if Lookup(origin) == "" then {} else ActiveByOrigins(reg, [Lookup(origin)])
  }

  predicate AllowedAtPreflight(statics: set<string>, reg: Registry, origin: string) {
    IsStatic(statics, origin) || ResolveByOrigin(reg, origin) != {}
  }

  /** `keyed` is the list the key resolved to, or None without a key. */
  predicate AllowedOnRequest(statics: set<string>, keyed: Option<seq<string>>, origin: string) {
    IsStatic(statics, origin)
    || match keyed
       case None => IsStatic(statics, origin)
       case Some(origins) => exists i :: 0 <= i < |origins| && Normalize(origins[i]) == Normalize(origin)
  }

  /** Stored as the lookup will spell it: non-empty, no trailing slash, no surrounding blank. */
  predicate Clean(origin: string) {
    origin != "" && origin[|origin| - 1] != '/' && origin[0] !in BLANKS && origin[|origin| - 1] !in BLANKS
  }

  lemma {:induction false} StripRightSplits(s: string, blanks: set<char>)
    ensures var r := StripRight(s, blanks);
            && |r| <= |s| && s[..|r|] == r
            && (forall i :: |r| <= i < |s| ==> s[i] in blanks)
            && (r != "" ==> r[|r| - 1] !in blanks)
  {
    if |s| > 0 && s[|s| - 1] in blanks {
      StripRightSplits(s[..|s| - 1], blanks);
    }
  }

  lemma {:induction false} StripRightIs(s: string, n: nat, blanks: set<char>)
    requires n <= |s| && (forall i :: n <= i < |s| ==> s[i] in blanks)
    requires n > 0 ==> s[n - 1] !in blanks
    ensures StripRight(s, blanks) == s[..n]
  {
    if n < |s| {
      StripRightIs(s[..|s| - 1], n, blanks);
      assert s[..|s| - 1][..n] == s[..n];
    } else {
      assert s[..n] == s;
    }
  }

  /** The two normal forms of an origin agree wherever the gateway's is clean. */
  lemma LookupAgrees(origin: string)
    requires Clean(Normalize(origin))
    ensures Lookup(origin) == Normalize(origin)
  {
    StripRightSplits(origin, {'/'});
    var n := |Normalize(origin)|;
    assert origin[0] == Normalize(origin)[0];
    assert StripLeft(origin, BLANKS) == origin;
    assert origin[|origin| - 1] !in BLANKS;
    assert StripRight(origin, BLANKS) == origin;
  }

  lemma CleanIsNormal(origin: string)
    requires Clean(origin)
    ensures Normalize(origin) == origin
  {
  }

  /** Preflight allows exactly the static origins and those that some active application lists as they are looked up. */
  lemma PreflightAllowsIff(statics: set<string>, reg: Registry, origin: string)
    ensures AllowedAtPreflight(statics, reg, origin) <==>
            || (exists s :: s in statics && Normalize(s) == Normalize(origin))
            || (exists id :: id in reg && reg[id].active && Lookup(origin) != "" && Lookup(origin) in reg[id].origins)
  {
    var o := Lookup(origin);
    assert o in [o];
    if id :| id in reg && reg[id].active && o != "" && o in reg[id].origins {
      assert Overlaps(reg[id], [o]);
      assert id in ResolveByOrigin(reg, origin);
    }
    if id :| id in ResolveByOrigin(reg, origin) {
      assert reg[id].active && o in reg[id].origins;
    }
  }

  /** The gateway's form is the origin less its trailing slashes, and no more. */
  lemma NormalizeIs(stem: string, slashes: string)
    requires (stem == "" || stem[|stem| - 1] != '/') && forall i :: 0 <= i < |slashes| ==> slashes[i] == '/'
    ensures Normalize(stem + slashes) == stem
  {
    var s := stem + slashes;
    assert forall i :: |stem| <= i < |s| ==> s[i] == slashes[i - |stem|];
    StripRightIs(s, |stem|, {'/'});
    assert (stem + slashes)[..|stem|] == stem;
  }

  // ----- the middleware -----

  /** `_handle_preflight`: 200 with the origin echoed back, or 400. */
  method HandlePreflight(statics: set<string>, reg: Registry, origin: string)
    returns (status: int, allowOrigin: Option<string>)
    ensures status == (if AllowedAtPreflight(statics, reg, origin) then 200 else 400)
    ensures allowOrigin == if status == 200 then Some(origin) else None
  {
    var allowed := exists s :: s in statics && Normalize(s) == Normalize(origin);
    if !allowed && Lookup(origin) != "" {
      var matching := FindActiveByOrigins(reg, [Lookup(origin)]);
      allowed := matching != [];
      assert allowed <==> ResolveByOrigin(reg, origin) != {} by {
        if matching != [] { assert matching[0] in matching; }
      }
    }
    status, allowOrigin := 400, None;
    if allowed {
      status, allowOrigin := 200, Some(origin);
    }
  }

  /** `_handle_actual`: the response header, if the origin is allowed; without a key only static origins are. */
  method HandleActual(statics: set<string>, keyed: Option<seq<string>>, origin: string)
    returns (allowOrigin: Option<string>)
    ensures allowOrigin == if AllowedOnRequest(statics, keyed, origin) then Some(origin) else None
    ensures allowOrigin.Some? <==>
            || (exists s :: s in statics && Normalize(s) == Normalize(origin))
            || (keyed.Some? && exists o :: o in keyed.value && Normalize(o) == Normalize(origin))
  {
    var appOrigins: set<string> := if keyed.Some? then set o | o in keyed.value else statics;
    if o :| o in statics + appOrigins && Normalize(o) == Normalize(origin) {
      if keyed.Some? && o !in statics {
        var i :| 0 <= i < |keyed.value| && keyed.value[i] == o;
      }
      return Some(origin);
    }
    allowOrigin := None;
  }

  /** In one database state, an origin allowed on a request keyed to an active application with clean
      origins was allowed at preflight, and that application is among those it resolved to. */
  lemma PreflightAgrees(statics: set<string>, reg: Registry, id: string, origin: string)
    requires id in reg && reg[id].active && forall o :: o in reg[id].origins ==> Clean(o)
    requires AllowedOnRequest(statics, Some(reg[id].origins), origin)
    ensures AllowedAtPreflight(statics, reg, origin)
    ensures !IsStatic(statics, origin) ==> id in ResolveByOrigin(reg, origin)
  {
    if !IsStatic(statics, origin) {
      var origins := reg[id].origins;
      var i :| 0 <= i < |origins| && Normalize(origins[i]) == Normalize(origin);
      assert origins[i] in origins;
      CleanIsNormal(origins[i]);
      LookupAgrees(origin);
      assert Lookup(origin) in [Lookup(origin)];
      assert Overlaps(reg[id], [Lookup(origin)]);
      assert id in ResolveByOrigin(reg, origin);
    }
  }

  /** Under origin ownership the origin resolves to exactly the application whose request it was allowed on. */
  lemma ResolvesToTheOwner(statics: set<string>, reg: Registry, id: string, origin: string)
    requires Owned(reg) && id in reg && reg[id].active && forall o :: o in reg[id].origins ==> Clean(o)
    requires AllowedOnRequest(statics, Some(reg[id].origins), origin) && !IsStatic(statics, origin)
    ensures ResolveByOrigin(reg, origin) == {id}
  {
    PreflightAgrees(statics, reg, id, origin);
    var o := Lookup(origin);
    assert o in reg[id].origins;
    forall j | j in ResolveByOrigin(reg, origin) ensures j == id {
      assert o in reg[j].origins;
    }
  }

  /** And conversely: a non-static origin resolved to some application is allowed on that application's
      requests, provided the origin itself carries no surrounding blank. */
  lemma ResolvedIsAllowed(statics: set<string>, reg: Registry, id: string, origin: string)
    requires id in ResolveByOrigin(reg, origin)
    requires origin != "" && origin[0] !in BLANKS && origin[|origin| - 1] !in BLANKS
    ensures AllowedOnRequest(statics, Some(reg[id].origins), origin)
  {
    var o := Lookup(origin);
    assert o == Normalize(origin);
    var origins := reg[id].origins;
    var i :| 0 <= i < |origins| && origins[i] == o;
    StripRightSplits(origin, {'/'});
    assert Normalize(o) == o;
  }

  lemma {:induction false} StripLeftShortens(s: string, blanks: set<char>)
    ensures |StripLeft(s, blanks)| <= |s|
    ensures |StripLeft(s, blanks)| == |s| && s != "" ==> s[0] !in blanks && StripLeft(s, blanks) == s
  {
    if |s| > 0 && s[0] in blanks {
      StripLeftShortens(s[1..], blanks);
    }
  }

  /** Cleanliness is exactly what preflight needs: a stored origin is clean if and only if every origin it
      admits on a request is looked up under its stored spelling. */
  lemma CleanIffSeenAtPreflight(stored: string)
    ensures Clean(stored) <==>
            stored != "" && forall origin :: Normalize(origin) == Normalize(stored) ==> Lookup(origin) == stored
  {
    if Clean(stored) {
      CleanIsNormal(stored);
      forall origin | Normalize(origin) == Normalize(stored) ensures Lookup(origin) == stored {
        LookupAgrees(origin);
      }
    } else if stored != "" && Lookup(stored) == stored {
      var left := StripLeft(stored, BLANKS);
      StripLeftShortens(stored, BLANKS);
      StripRightSplits(left, BLANKS);
      StripRightSplits(StripRight(left, BLANKS), {'/'});
      assert false;
    }
  }
}
