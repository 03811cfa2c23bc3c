/** What the path from a token to a transaction guarantees. */
module AdmissionResults {
  import opened Base
  import opened Admission
  import A = Authority
  import AR = AuthorityResults
  import I = Idempotency

  // ----- one kind of scope, one set of entry points

  ghost predicate OpenTo(s: Scope, e: Entry) {
    match e
    case WithTenantScope => s.tenant != NIL
    case WithTenantRead => s.tenant != NIL
    case WithSelfRead => s.self
    case WithSelfInvitation(hash) => s.self && hash != ""
    case WithSelfInTenant(tenant) => s.self && tenant != NIL
    case WithInvitationResolver(hash) => s.resolver && hash != ""
    case WithProviderInTenant(tenant) => s.provider && tenant != NIL
    case WithProviderScope => s.provider
    case WithProviderSnapshot => s.provider
    case WithResolutionScope => s.provider
    case WithConsumerScope => s.consumer
    case WithConsumerSnapshot => s.consumer
    case WithConsumerReconciliation => s.consumer
    case WithConsumerReconciliationSnapshot => s.consumer
  }

  /** The reason is required where the access is recorded for provider or consumer work. */
  ghost predicate NeedsReason(e: Entry) {
    Recorded(e) && !e.WithInvitationResolver?
  }

  /** A scope of one kind opens exactly its own kind's entry points. */
  lemma OpensOnlyItsOwn(s: Scope, e: Entry, reason: string)
    requires OneKind(s)
    ensures Refusal(s, e, reason).None? <==> OpenTo(s, e) && (NeedsReason(e) ==> reason != "")
  {
  }

  // ----- every caller resolves

  /** What authentication builds: one kind of authority, and the assurance its kind requires. */
  ghost predicate Shaped(caller: Caller) {
    && caller.subject != NIL
    && Count(caller.self) + Count(caller.reporter != NIL) + Count(caller.consumer != "") + Count(caller.provider || caller.eligible) + Count(caller.tenant != NIL) == 1
    && (caller.provider ==> caller.emergency || caller.activation.Some?)
  }

  lemma AdmittedIsShaped(c: Claims, route: Route, changes: bool, r: Records, caller: Caller)
    requires Authenticate(c, route, changes, r) == Ok(caller)
    ensures Shaped(caller) && Some(caller.subject) == c.principal
    ensures caller.self <==> (route == Contexts(caller.subject) && c.subjectType == "human") || route.AcceptInvitation?
    ensures caller.tenant != NIL ==> c.tenant == Names(caller.tenant) && Administers(r, caller.subject, caller.tenant)
                                     && c.subjectType == "human" && AtLeastAal2(c.acr) && !(changes && r.paused)
    ensures c.tenant != Absent && !caller.self ==> caller.tenant != NIL
    ensures caller.reporter != NIL ==> c.subjectType == "workload" && route.Reporting? && Admits(caller.reports, route.report)
    ensures c.subjectType == "workload" && route.Reporting? ==> caller.reporter != NIL
    ensures caller.consumer != "" ==> c.subjectType == "workload" && !route.Reporting?
  {
  }

  lemma ShapedResolves(caller: Caller, correlation: Id)
    requires Shaped(caller) && correlation != NIL
    ensures
      var scope := Resolve(caller, correlation);
      && scope.Ok? && OneKind(scope.value) && !scope.value.acting
      && scope.value.actor == caller.subject && scope.value.correlation == correlation
      && scope.value.self == caller.self && scope.value.tenant == caller.tenant && scope.value.consumer == (caller.consumer != "")
      && scope.value.resolver == (caller.reporter != NIL && caller.reports.ReportsInvitationResolve?)
  {
  }

  /**
   Whoever authentication admits resolves, without error, to a scope of exactly one kind that acts as
   the token's own Principal; and which kind follows from the token and the route alone.
   */
  lemma AdmittedResolves(c: Claims, route: Route, changes: bool, r: Records, correlation: Id, caller: Caller)
    requires correlation != NIL && Authenticate(c, route, changes, r) == Ok(caller)
    ensures
      var scope := Resolve(caller, correlation);
      && scope.Ok? && OneKind(scope.value) && !scope.value.acting
      && Some(scope.value.actor) == c.principal && scope.value.correlation == correlation
      && (scope.value.self <==> (route == Contexts(scope.value.actor) && c.subjectType == "human") || route.AcceptInvitation?)
      && (scope.value.tenant != NIL ==> c.tenant == Names(scope.value.tenant) && Administers(r, scope.value.actor, scope.value.tenant)
                                        && c.subjectType == "human" && AtLeastAal2(c.acr) && !(changes && r.paused))
      && (c.tenant != Absent && !scope.value.self ==> scope.value.tenant != NIL)
      && (scope.value.resolver <==> c.subjectType == "workload" && route == Reporting(InvitationResolve))
      && (scope.value.consumer ==> c.subjectType == "workload" && !route.Reporting?)
  {
    AdmittedIsShaped(c, route, changes, r, caller);
    ShapedResolves(caller, correlation);
  }

  /** A provider's authority is what its record names: an eligible holder is admitted to the activation routes alone. */
  lemma ProviderScopeNamesItsAuthority(c: Claims, route: Route, changes: bool, r: Records, correlation: Id)
    requires correlation != NIL && Authenticate(c, route, changes, r).Ok?
    requires Resolve(Authenticate(c, route, changes, r).value, correlation).Ok?
    requires Resolve(Authenticate(c, route, changes, r).value, correlation).value.provider
    ensures
      var authority := Resolve(Authenticate(c, route, changes, r).value, correlation).value.authority.value;
      var standing := A.ProviderStanding(r.tables, c.principal.value);
      match authority.kind
      case Reporter => c.subjectType == "workload" && route.Reporting?
      case Emergency => c.subjectType == "human" && standing.emergency
      case Activation => c.subjectType == "human" && !standing.emergency && standing.activation == authority.activation && authority.activation.Some?
      case Eligible => c.subjectType == "human" && standing.holder && !standing.emergency && standing.activation.None? && route.Activations?
      case Consumer => false
  {
  }

  /**
   Over every history of grants and activations: outside the activation routes a person opens the
   provider scope only while some unrevoked grant of theirs confers this service's authority.
   */
  lemma ProviderHasAuthorityNow(start: int, max: int, steps: seq<A.Step>, c: Claims, route: Route, changes: bool, r: Records, correlation: Id)
    requires r.tables == A.Exec(A.Init(start, max), steps)
    requires correlation != NIL && Authenticate(c, route, changes, r).Ok? && c.subjectType == "human" && !route.Activations?
    requires Resolve(Authenticate(c, route, changes, r).value, correlation).Ok?
    requires Resolve(Authenticate(c, route, changes, r).value, correlation).value.provider
    ensures exists g: nat :: AR.AuthorizedBy(r.tables, c.principal.value, g)
  {
    ProviderScopeNamesItsAuthority(c, route, changes, r, correlation);
    AR.StandingIsAuthority(start, max, steps, c.principal.value);
  }

  // ----- idempotency keys across a change of standing

  /** A person without a Tenant keeps one key namespace exactly while whether they are in force does not change. */
  lemma KeysFollowStanding(c: Claims, route: Route, changes: bool, r: Records, r': Records, caller: Caller, caller': Caller)
    requires Authenticate(c, route, changes, r) == Ok(caller) && Authenticate(c, route, changes, r') == Ok(caller')
    requires c.subjectType == "human" && c.tenant.Absent? && !caller.self
    ensures
      var standing := A.ProviderStanding(r.tables, c.principal.value);
      var standing' := A.ProviderStanding(r'.tables, c.principal.value);
      ClaimScope(caller) == ClaimScope(caller') <==>
        ((standing.emergency || standing.activation.Some?) <==> (standing'.emergency || standing'.activation.Some?))
  {
  }

  /**
   So a request for an activation that needs no approval moves its holder's own key namespace. Sent
   again under its key, after its record was stored, it finds the key unclaimed where the record would
   have been replayed; it runs again, and is refused as already in force.
   */
  lemma ActivationMovesItsOwnKeys(c: Claims, r: Records, r': Records, g: nat, duration: int, reason: string, t': A.Tables, caller: Caller,
                                  keys: I.Keys, key: string, digest: I.Digest, response: I.Response)
    requires Authenticate(c, Activations, true, r) == Ok(caller) && caller.eligible
    requires A.RequestTx(r.tables, caller.subject, g, duration, reason, false) == Ok(t') && r' == r.(tables := t')
    requires g < |r.tables.grants| && r.tables.grants[g].scope == A.OrganizationControl
    requires (ScopeText(OfProvider(caller.subject)), key) !in keys
    ensures
      var again := Authenticate(c, Activations, true, r');
      var recorded := keys[(ScopeText(ClaimScope(caller)), key) := I.Entry(digest, Some(response))];
      && again.Ok? && again.value.subject == caller.subject && ClaimScope(again.value) != ClaimScope(caller)
      && I.Find(recorded, I.Claim(ScopeText(ClaimScope(caller)), key, digest)) == I.Replay(response)
      && I.Find(recorded, I.Claim(ScopeText(ClaimScope(again.value)), key, digest)) == I.Claimed
      && A.RequestTx(t', caller.subject, g, duration, reason, false) == Err(A.ActivationInForce)
  {
    var n := |r.tables.activations|;
    assert t'.grants == r.tables.grants && |t'.activations| == n + 1;
    assert A.InForce(t'.activations[n], t'.now) && t'.activations[n].grant == g;
    assert A.StandsOn(t', caller.subject, n);
    AR.FirstStandingFinds(t', caller.subject, n + 1);
    assert ScopeText(ClaimScope(caller))[0] == 't' && ScopeText(OfProvider(caller.subject))[0] == 'p';
  }

  /** A provider bootstrapped, and another granted the scope to activate. */
  function TwoProviders(): A.Tables {
    A.Tables(0, SECOND, [A.Grant(1, A.OrganizationControl, A.Emergency, None, 0, None, 0),
                         A.Grant(2, A.OrganizationControl, A.Eligible, Some(1), 0, None, 0)], [], [])
  }

  lemma TwoProvidersReached() returns (steps: seq<A.Step>)
    ensures A.Exec(A.Init(0, SECOND), steps) == TwoProviders()
  {
    var bootstrap := A.Bootstrap(1, "operator", "first");
    var grant := A.GrantStep(1, 2, A.OrganizationControl, A.Eligible, "on call");
    steps := [bootstrap, grant];
    assert 'o' in "operator" && 'f' in "first" && 'o' in "on call";
    assert steps[..1] == [bootstrap] && steps[..1][..0] == [];
    assert A.Exec(A.Init(0, SECOND), steps[..1][..0]) == A.Init(0, SECOND);
    assert A.Exec(A.Init(0, SECOND), steps[..1]).grants == TwoProviders().grants[..1];
  }

  lemma SecondIsEligible()
    ensures A.ProviderStanding(TwoProviders(), 2) == A.Standing(true, false, None)
    ensures A.RequestTx(TwoProviders(), 2, 1, SECOND, "incident", false).Ok?
  {
    var t := TwoProviders();
    assert t.grants[1].principal == 2 && A.Active(t.grants[1]);
    assert 'i' in "incident";
    assert A.Lapse(t.activations, 1, t.now) == [];
  }

  /** Such a request is reachable: the bootstrap, an eligible grant, and its holder's first activation. */
  lemma ActivationKeysReached() returns (steps: seq<A.Step>, c: Claims, r: Records, caller: Caller)
    ensures r.tables == A.Exec(A.Init(0, SECOND), steps)
    ensures Authenticate(c, Activations, true, r) == Ok(caller) && caller.eligible
    ensures |r.tables.grants| == 2 && r.tables.grants[1].scope == A.OrganizationControl
    ensures A.RequestTx(r.tables, caller.subject, 1, SECOND, "incident", false).Ok?
  {
    steps := TwoProvidersReached();
    SecondIsEligible();
    c := Claims(Some(2), "human", Absent, Some("aal2"), true, None);
    assert 'a' in "aal2";
    r := Records(true, TwoProviders(), map[], false, map[], map[], false);
    caller := Nobody(2).(eligible := true);
  }

  // ----- nesting

  /** The scope after entering each of a chain of entry points from the body of the one before. */
  function Nested(s: Scope, entries: seq<Entry>): Scope {
    if entries == [] then s else Inner(Nested(s, entries[..|entries| - 1]), entries[|entries| - 1])
  }

  /** Every entry point of the chain opened. */
  ghost predicate Opened(s: Scope, entries: seq<Entry>, reason: string) {
    forall k :: 0 <= k < |entries| ==> Refusal(Nested(s, entries[..k]), entries[k], reason).None?
  }

  /**
   However transactions nest, the actor and the correlation stay, a scope bound to a Tenant stays
   bound to it, and the acting-provider mark is there only on a provider's own act.
   */
  lemma {:induction false} NestingOnlyNarrows(s: Scope, entries: seq<Entry>, reason: string)
    requires OneKind(s) && !s.acting && Opened(s, entries, reason)
    ensures
      var inner := Nested(s, entries);
      && OneKind(inner) && inner.actor == s.actor && inner.correlation == s.correlation
      && (inner.acting ==> s.provider && inner.authority == s.authority)
      && (s.tenant != NIL || inner.tenant == NIL ==> inner == s)
  {
    if entries != [] {
      var n := |entries| - 1;
      var before := entries[..n];
      forall k | 0 <= k < n ensures Refusal(Nested(s, before[..k]), before[k], reason).None? {
        assert before[..k] == entries[..k];
        assert Refusal(Nested(s, entries[..k]), entries[k], reason).None?;
      }
      NestingOnlyNarrows(s, before, reason);
      assert Refusal(Nested(s, entries[..n]), entries[n], reason).None?;
      OpensOnlyItsOwn(Nested(s, before), entries[n], reason);
    }
  }
}
