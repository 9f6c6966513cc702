/** The applications table of application-service and the rule that an origin belongs to one active application. */
module Origins {
  import opened Prelude

  datatype Application = Application(tenant: string, origins: seq<string>, active: bool)

  type Registry = map<string, Application>

  /** A partial update; a field that is None is left alone. */
  datatype Update = Update(origins: Option<seq<string>>, active: Option<bool>)

  /** The application lists one of the requested origins; empty ones are not looked up. */
  predicate Overlaps(app: Application, origins: seq<string>) {
    exists o :: o in origins && o != "" && o in app.origins
  }

  function ActiveByOrigins(reg: Registry, origins: seq<string>): set<string> {
    set id | id in reg && reg[id].active && Overlaps(reg[id], origins)
  }

  predicate Available(reg: Registry, origins: seq<string>, exclude: Option<string>) {
    forall id :: id in ActiveByOrigins(reg, origins) ==> Some(id) == exclude
  }

  /** No non-empty origin is claimed by two active applications. */
  ghost predicate Owned(reg: Registry) {
    forall i, j, o ::
      (i in reg && j in reg && reg[i].active && reg[j].active && o != "" && o in reg[i].origins && o in reg[j].origins)
      ==> i == j
  }

  function Registered(reg: Registry, id: string, tenant: string, origins: seq<string>): Registry {
    if Available(reg, origins, None) then reg[id := Application(tenant, origins, true)] else reg
  }

  function Changed(app: Application, upd: Update): Application {
    Application(app.tenant,
                if upd.origins.Some? then upd.origins.value else app.origins,
                if upd.active.Some? then upd.active.value else app.active)
  }

  predicate UpdateAccepted(reg: Registry, id: string, upd: Update) {
    id in reg && (upd.origins.Some? ==> Available(reg, upd.origins.value, Some(id)))
  }

  function Updated(reg: Registry, id: string, upd: Update): Registry {
    if UpdateAccepted(reg, id, upd) then reg[id := Changed(reg[id], upd)] else reg
  }

  // ----- who keeps ownership -----

  lemma ClaimIsFound(reg: Registry, id: string, origins: seq<string>, o: string)
    ensures id in reg && reg[id].active && o != "" && o in origins && o in reg[id].origins ==>
              id in ActiveByOrigins(reg, origins)
  {
    if id in reg && o != "" && o in origins && o in reg[id].origins {
      assert Overlaps(reg[id], origins);
    }
  }

  lemma CreateKeepsOwnership(reg: Registry, id: string, tenant: string, origins: seq<string>)
    requires Owned(reg) && id !in reg
    ensures Owned(Registered(reg, id, tenant, origins))
  {
    var reg' := Registered(reg, id, tenant, origins);
    forall i, o | i in reg && reg[i].active && o != "" && o in origins && Available(reg, origins, None)
      ensures o !in reg[i].origins
    {
      ClaimIsFound(reg, i, origins, o);
    }
  }

  /** The one step that skips the check: turning a suspended application active without naming its origins. */
  predicate UncheckedReactivation(reg: Registry, id: string, upd: Update) {
    id in reg && upd.origins.None? && upd.active == Some(true) && !reg[id].active
  }

  lemma AvailableMeansUnclaimed(reg: Registry, id: string, origins: seq<string>)
    requires id in reg
    ensures Available(reg, origins, Some(id)) <==>
            forall j, o :: j in reg && j != id && reg[j].active && o != "" && o in origins ==> o !in reg[j].origins
  {
    if Available(reg, origins, Some(id)) {
      forall j, o | j in reg && j != id && reg[j].active && o != "" && o in origins ensures o !in reg[j].origins {
        ClaimIsFound(reg, j, origins, o);
      }
    }
  }

  /** An update keeps ownership exactly when it is not an unchecked reactivation, or nobody active claims
      the origins the application comes back with. */
  lemma UpdateKeepsOwnershipIff(reg: Registry, id: string, upd: Update)
    requires Owned(reg)
    ensures Owned(Updated(reg, id, upd)) <==>
            (UncheckedReactivation(reg, id, upd) ==> Available(reg, reg[id].origins, Some(id)))
  {
    if UpdateAccepted(reg, id, upd) {
      var reg' := Updated(reg, id, upd);
      AvailableMeansUnclaimed(reg, id, reg'[id].origins);
      if UncheckedReactivation(reg, id, upd) && !Available(reg, reg[id].origins, Some(id)) {
        var j, o :| j in reg && j != id && reg[j].active && o != "" && o in reg[id].origins && o in reg[j].origins;
        assert reg'[j] == reg[j] && reg'[id].origins == reg[id].origins && reg'[id].active;
      }
    }
  }

  datatype RegistryCall = Create(id: string, tenant: string, origins: seq<string>) | Edit(id: string, upd: Update)

  function After(calls: seq<RegistryCall>, n: nat): Registry
    requires n <= |calls|
  {
    if n == 0 then map[]
    else match calls[n - 1]
      case Create(id, tenant, origins) => Registered(After(calls, n - 1), id, tenant, origins)
      case Edit(id, upd) => Updated(After(calls, n - 1), id, upd)
  }

  /** A registration brings a fresh id. */
  ghost predicate FreshAt(calls: seq<RegistryCall>, n: nat)
    requires n < |calls|
  {
    calls[n].Create? ==> calls[n].id !in After(calls, n)
  }

  /** Call `n` is no unchecked reactivation, or nobody active claims the origins that come back. */
  ghost predicate HarmlessAt(calls: seq<RegistryCall>, n: nat)
    requires n < |calls|
  {
    var reg := After(calls, n);
    calls[n].Edit? && UncheckedReactivation(reg, calls[n].id, calls[n].upd) ==>
      Available(reg, reg[calls[n].id].origins, Some(calls[n].id))
  }

  ghost predicate OwnedAt(calls: seq<RegistryCall>, n: nat)
    requires n <= |calls|
  {
    Owned(After(calls, n))
  }

  lemma OwnedStepIff(calls: seq<RegistryCall>, n: nat)
    requires n < |calls| && FreshAt(calls, n) && OwnedAt(calls, n)
    ensures OwnedAt(calls, n + 1) <==> HarmlessAt(calls, n)
  {
    match calls[n]
    case Create(id, tenant, origins) => CreateKeepsOwnership(After(calls, n), id, tenant, origins);
    case Edit(id, upd) => UpdateKeepsOwnershipIff(After(calls, n), id, upd);
  }

  lemma {:induction false} HarmlessKeepsOwnership(calls: seq<RegistryCall>, n: nat)
    requires n <= |calls| && forall k :: 0 <= k < n ==> FreshAt(calls, k) && HarmlessAt(calls, k)
    ensures OwnedAt(calls, n)
  {
    if n > 0 {
      HarmlessKeepsOwnership(calls, n - 1);
      OwnedStepIff(calls, n - 1);
    }
  }

  /** Origin ownership holds all along a serialised run if and only if every unchecked reactivation of it found the
      origins it brought back unclaimed. */
  lemma OwnershipAlwaysIff(calls: seq<RegistryCall>, n: nat)
    requires n <= |calls| && forall k :: 0 <= k < n ==> FreshAt(calls, k)
    ensures (forall k :: 0 <= k <= n ==> OwnedAt(calls, k)) <==> (forall k :: 0 <= k < n ==> HarmlessAt(calls, k))
  {
    if forall k :: 0 <= k < n ==> HarmlessAt(calls, k) {
      forall k | 0 <= k <= n ensures OwnedAt(calls, k) { HarmlessKeepsOwnership(calls, k); }
    }
    if forall k :: 0 <= k <= n ==> OwnedAt(calls, k) {
      forall k | 0 <= k < n ensures HarmlessAt(calls, k) {
        assert OwnedAt(calls, k) && OwnedAt(calls, k + 1);
        OwnedStepIff(calls, k);
      }
    }
  }

  /** Suspend, let someone else register the origin, reactivate: two active applications own it. */
  lemma ReactivationSharesAnOrigin(origin: string)
    requires origin != ""
    ensures var calls := [Create("a", "ta", [origin]), Edit("a", Update(None, Some(false))),
                          Create("b", "tb", [origin]), Edit("a", Update(None, Some(true)))];
            Owned(After(calls, 3)) && ActiveByOrigins(After(calls, 4), [origin]) == {"a", "b"}
  {
    var calls := [Create("a", "ta", [origin]), Edit("a", Update(None, Some(false))),
                  Create("b", "tb", [origin]), Edit("a", Update(None, Some(true)))];
    var a, b := Application("ta", [origin], true), Application("tb", [origin], true);
    assert After(calls, 0) == map[];
    assert After(calls, 1) == map["a" := a];
    assert After(calls, 2) == map["a" := a.(active := false)];
    assert After(calls, 3) == map["a" := a.(active := false), "b" := b];
    assert After(calls, 4) == map["a" := a, "b" := b];
    assert origin in [origin];
    assert Overlaps(a, [origin]) && Overlaps(b, [origin]);
  }

  // ----- the queries, row by row -----

  method ClaimsAny(app: Application, origins: seq<string>) returns (claims: bool)
    ensures claims == Overlaps(app, origins)
  {
    claims := false;
    for i := 0 to |origins|
      invariant claims <==> exists o :: o in origins[..i] && o != "" && o in app.origins
    {
      assert origins[..i + 1] == origins[..i] + [origins[i]];
      if origins[i] != "" && origins[i] in app.origins {
        claims := true;
      }
    }
    assert origins[..|origins|] == origins;
  }

  method FindActiveByOrigins(reg: Registry, origins: seq<string>) returns (found: seq<string>)
    ensures forall id :: id in found <==> id in ActiveByOrigins(reg, origins)
  {
    found := [];
    var rest := reg.Keys;
    while rest != {}
      invariant rest <= reg.Keys
      invariant forall id :: id in found <==> id in ActiveByOrigins(reg, origins) && id !in rest
      decreases |rest|
    {
      var id :| id in rest;
      var claims := ClaimsAny(reg[id], origins);
      if reg[id].active && claims {
        found := found + [id];
      }
      rest := rest - {id};
    }
  }

  method EnsureOriginsAvailable(reg: Registry, origins: seq<string>, exclude: Option<string>) returns (ok: bool)
    ensures ok == Available(reg, origins, exclude)
  {
    var conflicts := FindActiveByOrigins(reg, origins);
    for i := 0 to |conflicts|
      invariant forall k :: 0 <= k < i ==> Some(conflicts[k]) == exclude
    {
      if Some(conflicts[i]) != exclude {
        assert conflicts[i] in ActiveByOrigins(reg, origins);
        return false;
      }
    }
    ok := true;
  }
}
