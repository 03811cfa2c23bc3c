/**
 Who is admitted, as what, and who is not, said of the token's claims, the route and the records
 (internal/httpapi/authentication.go, caller.go).
 */
module AdmissionRules {
  import opened Base
  import opened Admission
  import opened AdmissionResults
  import A = Authority
  import AR = AuthorityResults

  // ----- tokens

  ghost predicate Named(c: Claims) {
    c.principal.Some? && c.principal.value != NIL
  }

  ghost predicate Stated(text: Option<string>) {
    text.Some? && Says(text.value)
  }

  /** A person's token for one Tenant, with two factors. */
  ghost predicate TenantToken(c: Claims) {
    && Named(c) && c.subjectType == "human" && c.tenant.Names? && c.tenant.tenant != NIL
    && (c.acr == Some("aal2") || c.acr == Some("phr")) && c.authTime
  }

  /** A person's token for no Tenant, with its assurance stated. */
  ghost predicate PersonToken(c: Claims) {
    Named(c) && c.subjectType == "human" && c.tenant.Absent? && Stated(c.acr) && c.authTime
  }

  /** A workload's token, with its owner stated. */
  ghost predicate WorkloadToken(c: Claims) {
    Named(c) && c.subjectType == "workload" && c.tenant.Absent? && Stated(c.owner)
  }

  lemma PresentsExactlyWhen(c: Claims)
    ensures
      var p := Present(c);
      && (p.Ok? <==> TenantToken(c) || PersonToken(c) || WorkloadToken(c))
      && (TenantToken(c) ==> p == Ok(Presented(c.principal.value, false, c.tenant.tenant)))
      && (PersonToken(c) ==> p == Ok(Presented(c.principal.value, false, NIL)))
      && (WorkloadToken(c) ==> p == Ok(Presented(c.principal.value, true, NIL)))
  {
    if c.acr.Some? {
      SaysExactlyWhen(c.acr.value);
    }
    if c.owner.Some? {
      SaysExactlyWhen(c.owner.value);
    }
  }

  // ----- records

  ghost predicate Administrator(r: Records, principal: Id, tenant: Id) {
    (principal, tenant) in r.tenants && r.tenants[(principal, tenant)] == TenantStanding(true, true, true)
  }

  /** The registration admits the report: provisioning, an obligation of its domain, or the invitation resolve. */
  ghost predicate ReporterOf(r: Records, principal: Id, report: Report) {
    && principal in r.reporters && r.reporters[principal].0 != NIL
    && match r.reporters[principal].1
       case ReportsProvisioning => report == Provisioning
       case ReportsInvitationResolve => report == InvitationResolve
       case ReportsObligation(domain) => report == Obligation && |domain| > 0
  }

  ghost predicate ConsumerOf(r: Records, principal: Id) {
    r.consumersConfigured && principal in r.consumers && |r.consumers[principal]| > 0
  }

  /** The Principal holds an unrevoked grant of some scope. */
  ghost predicate HoldsAny(t: A.Tables, principal: Id) {
    exists g :: 0 <= g < |t.grants| && t.grants[g].principal == principal && t.grants[g].revokedAt == None
  }

  ghost predicate EmergencyNow(t: A.Tables, principal: Id) {
    exists g :: 0 <= g < |t.grants| && t.grants[g].principal == principal && t.grants[g].revokedAt == None
                && t.grants[g].scope == A.OrganizationControl && t.grants[g].kind == A.Emergency
  }

  /** The activation is the Principal's, of an unrevoked grant, approved, not ended, and runs now. */
  ghost predicate ActivatedBy(t: A.Tables, principal: Id, i: nat) {
    && i < |t.activations| && t.activations[i].principal == principal && t.activations[i].scope == A.OrganizationControl
    && t.activations[i].grant < |t.grants| && t.grants[t.activations[i].grant].revokedAt == None
    && t.activations[i].decision == Some(A.Approved) && t.activations[i].endedAt == None
    && t.activations[i].endsAt.Some? && t.now < t.activations[i].endsAt.value
  }

  lemma StandingExactlyWhen(t: A.Tables, principal: Id)
    ensures
      var standing := A.ProviderStanding(t, principal);
      && (standing.holder <==> HoldsAny(t, principal)) && (standing.emergency <==> EmergencyNow(t, principal))
      && (standing.activation.Some? <==> exists i: nat :: ActivatedBy(t, principal, i))
      && (standing.activation.Some? ==> ActivatedBy(t, principal, standing.activation.value))
  {
    AR.FirstStandingFinds(t, principal, |t.activations|);
    assert forall i: nat :: A.StandsOn(t, principal, i) <==> ActivatedBy(t, principal, i);
    if HoldsAny(t, principal) {
      var g :| 0 <= g < |t.grants| && t.grants[g].principal == principal && t.grants[g].revokedAt == None;
      assert A.Active(t.grants[g]);
    }
    if EmergencyNow(t, principal) {
      var g :| 0 <= g < |t.grants| && t.grants[g].principal == principal && t.grants[g].revokedAt == None
               && t.grants[g].scope == A.OrganizationControl && t.grants[g].kind == A.Emergency;
      assert A.Active(t.grants[g]);
    }
  }

  ghost predicate InForceNow(t: A.Tables, principal: Id) {
    EmergencyNow(t, principal) || exists i: nat :: ActivatedBy(t, principal, i)
  }

  // ----- admission

  /** A person about their own contexts, or accepting an invitation. */
  ghost predicate SelfCall(c: Claims, route: Route) {
    (TenantToken(c) || PersonToken(c)) && (route == Contexts(c.principal.value) || route == AcceptInvitation)
  }

  ghost predicate TenantCall(c: Claims, route: Route, changes: bool, r: Records) {
    && TenantToken(c) && !SelfCall(c, route) && r.readable
    && Administrator(r, c.principal.value, c.tenant.tenant) && !(changes && r.paused)
  }

  ghost predicate ReporterCall(c: Claims, route: Route, r: Records) {
    WorkloadToken(c) && route.Reporting? && r.readable && ReporterOf(r, c.principal.value, route.report)
  }

  ghost predicate ConsumerCall(c: Claims, route: Route, r: Records) {
    WorkloadToken(c) && !route.Reporting? && route != AcceptInvitation && r.readable && ConsumerOf(r, c.principal.value)
  }

  /** In force anywhere; merely eligible on the activation routes alone. */
  ghost predicate ProviderCall(c: Claims, route: Route, r: Records) {
    && PersonToken(c) && !SelfCall(c, route) && r.readable && HoldsAny(r.tables, c.principal.value)
    && (InForceNow(r.tables, c.principal.value) || route == Activations)
  }

  /** What the caller built for each kind of call says. */
  ghost predicate CallerIs(caller: Caller, c: Claims, route: Route, changes: bool, r: Records)
    requires Named(c)
  {
    && caller.subject == c.principal.value
    && (caller.self <==> SelfCall(c, route))
    && (caller.tenant == if TenantCall(c, route, changes, r) then c.tenant.tenant else NIL)
    && (caller.reporter == if ReporterCall(c, route, r) then r.reporters[c.principal.value].0 else NIL)
    && (ReporterCall(c, route, r) ==> caller.reports == r.reporters[c.principal.value].1)
    && (caller.consumer == if ConsumerCall(c, route, r) then r.consumers[c.principal.value] else "")
    && (caller.provider <==> ProviderCall(c, route, r) && InForceNow(r.tables, c.principal.value))
    && (caller.eligible <==> ProviderCall(c, route, r) && !InForceNow(r.tables, c.principal.value))
    && (caller.emergency <==> ProviderCall(c, route, r) && EmergencyNow(r.tables, c.principal.value))
    && (caller.activation.Some? <==> ProviderCall(c, route, r) && exists i: nat :: ActivatedBy(r.tables, c.principal.value, i))
    && (caller.activation.Some? ==> ActivatedBy(r.tables, c.principal.value, caller.activation.value))
  }

  lemma AuthorizesExactlyWhen(p: Presented, report: Option<Report>, r: Records)
    requires p.principal != NIL && (p.workload ==> p.tenant == NIL)
    ensures
      var caller := Authorize(p, report, r);
      && (p.tenant != NIL ==> (caller.Ok? <==> r.readable && Administrator(r, p.principal, p.tenant)))
      && (p.workload && report.Some? ==> (caller.Ok? <==> r.readable && ReporterOf(r, p.principal, report.value)))
      && (p.workload && report.None? ==> (caller.Ok? <==> r.readable && ConsumerOf(r, p.principal)))
      && (!p.workload && p.tenant == NIL ==> (caller.Ok? <==> r.readable && HoldsAny(r.tables, p.principal)))
      && (caller.Err? ==> (caller.error == RecordsUnavailable <==> !r.readable && !(p.workload && report.None? && !r.consumersConfigured)))
      && (caller.Err? ==> caller.error == RecordsUnavailable || caller.error == Forbidden)
  {
    StandingExactlyWhen(r.tables, p.principal);
  }

  /** Exactly five kinds of call are admitted, each as what it is. */
  lemma AdmittedExactlyWhen(c: Claims, route: Route, changes: bool, r: Records)
    ensures Authenticate(c, route, changes, r).Ok? <==>
              SelfCall(c, route) || TenantCall(c, route, changes, r) || ReporterCall(c, route, r) || ConsumerCall(c, route, r) || ProviderCall(c, route, r)
    ensures Authenticate(c, route, changes, r).Ok? ==> Named(c) && CallerIs(Authenticate(c, route, changes, r).value, c, route, changes, r)
  {
    PresentsExactlyWhen(c);
    if Present(c).Ok? {
      var p := Present(c).value;
      StandingExactlyWhen(r.tables, p.principal);
      AuthorizesExactlyWhen(p, if route.Reporting? then Some(route.report) else None, r);
    }
  }

  /** The scope each kind of call acts in. */
  lemma ResolvesTo(c: Claims, route: Route, changes: bool, r: Records, correlation: Id)
    requires correlation != NIL && Authenticate(c, route, changes, r).Ok?
    ensures
      var scope := Resolve(Authenticate(c, route, changes, r).value, correlation);
      var p := c.principal.value;
      && scope.Ok? && scope.value.actor == p && scope.value.correlation == correlation && !scope.value.acting
      && (scope.value.self <==> SelfCall(c, route))
      && (scope.value.consumer <==> ConsumerCall(c, route, r))
      && (scope.value.resolver <==> ReporterCall(c, route, r) && route.report == InvitationResolve)
      && (scope.value.provider <==> ProviderCall(c, route, r) || (ReporterCall(c, route, r) && route.report != InvitationResolve))
      && (scope.value.tenant == if TenantCall(c, route, changes, r) then c.tenant.tenant else NIL)
      && (ProviderCall(c, route, r) ==>
            scope.value.authority.Some? &&
            if EmergencyNow(r.tables, p) then scope.value.authority.value == Authority(Emergency, None)
            else if InForceNow(r.tables, p) then
              scope.value.authority.value.kind == Activation && scope.value.authority.value.activation.Some?
              && ActivatedBy(r.tables, p, scope.value.authority.value.activation.value)
            else scope.value.authority.value == Authority(Eligible, None))
  {
    AdmittedExactlyWhen(c, route, changes, r);
    var caller := Authenticate(c, route, changes, r).value;
    AdmittedIsShaped(c, route, changes, r, caller);
    ShapedResolves(caller, correlation);
  }

  // ----- refusals

  /** The token is one of the three kinds, and the request is not about its own Principal. */
  ghost predicate OnRecord(c: Claims, route: Route) {
    (TenantToken(c) || PersonToken(c) || WorkloadToken(c)) && !SelfCall(c, route) && route != AcceptInvitation
  }

  /** Paused stops a Tenant's own changes alone; records that cannot be read stop whoever needs one; everybody else is forbidden. */
  lemma RefusedExactlyWhen(c: Claims, route: Route, changes: bool, r: Records)
    ensures
      var answer := Authenticate(c, route, changes, r);
      && (answer == Err(Paused) <==>
            && TenantToken(c) && OnRecord(c, route) && r.readable && Administrator(r, c.principal.value, c.tenant.tenant)
            && changes && r.paused)
      && (answer == Err(RecordsUnavailable) <==>
            OnRecord(c, route) && !r.readable && !(WorkloadToken(c) && !route.Reporting? && !r.consumersConfigured))
      && (answer.Err? ==> answer.error in {Paused, RecordsUnavailable, Forbidden})
  {
    PresentsExactlyWhen(c);
    if Present(c).Ok? {
      var p := Present(c).value;
      AuthorizesExactlyWhen(p, if route.Reporting? then Some(route.report) else None, r);
    }
  }

  // ----- entry points

  /** The entry points whose transaction may change state. */
  ghost predicate Changes(e: Entry) {
    e.WithTenantScope? || e.WithSelfInTenant? || e.WithProviderInTenant? || e.WithProviderScope? || e.WithResolutionScope?
    || e.WithConsumerScope? || e.WithConsumerReconciliation?
  }

  /** The scope reaches past its own Tenant or person. */
  ghost predicate Privileged(s: Scope) {
    s.provider || s.consumer || s.resolver
  }

  /** The entry point is of the scope's own kind, and a provider or a consumer gives its reason. */
  ghost predicate Opens(s: Scope, e: Entry, reason: string) {
    OpenTo(s, e) && (s.provider || s.consumer ==> reason != "")
  }

  /** The Tenant an access is recorded against. */
  ghost function RecordedTenant(e: Entry, routeTenant: Id): Id {
    if e.WithProviderInTenant? then e.tenant else if e.WithInvitationResolver? then NIL else routeTenant
  }

  /**
   A request's key is claimed exactly where its transaction may change state. Evidence is written
   exactly for privileged scopes, and names the scope's own actor, correlation and authority.
   */
  lemma EntryExactlyWhen(s: Scope, e: Entry, reason: string, routeTenant: Id)
    requires OneKind(s)
    ensures (MakesClaim(e) <==> Changes(e)) && (ReadOnly(e) <==> !Changes(e))
    ensures Refusal(s, e, reason).None? <==> Opens(s, e, reason)
    ensures Opens(s, e, reason) ==> (Recorded(e) <==> Privileged(s))
    ensures Opens(s, e, reason) && Privileged(s) && !s.acting ==>
              EvidenceOf(s, e, reason, routeTenant)
              == Access(s.actor, s.correlation, if s.resolver then "invitation:resolve" else reason, s.authority, RecordedTenant(e, routeTenant))
  {
    OpensOnlyItsOwn(s, e, reason);
  }

  // ----- whose keys

  lemma {:induction false} TextIsDigits(id: Id)
    ensures |Text(id)| > 0 && forall k :: 0 <= k < |Text(id)| ==> '0' <= Text(id)[k] <= '9'
  {
    if id >= 10 {
      TextIsDigits(id / 10);
    }
  }

  /** Identifiers are told apart by their text. */
  lemma {:induction false} TextNames(a: Id, b: Id)
    requires Text(a) == Text(b)
    ensures a == b
  {
    LastDigit(a);
    LastDigit(b);
    if a >= 10 && b >= 10 {
      TextNames(a / 10, b / 10);
    }
  }

  lemma LastDigit(id: Id)
    ensures |Text(id)| > 0 && Text(id)[|Text(id)| - 1] == "0123456789"[id % 10]
    ensures |Text(id)| == 1 <==> id < 10
    ensures id >= 10 ==> Text(id)[..|Text(id)| - 1] == Text(id / 10)
  {
    TextIsDigits(id);
    if id >= 10 {
      TextIsDigits(id / 10);
    }
  }

  lemma FirstColon(a: string, b: string)
    requires ':' !in a
    ensures (a + ":" + b)[|a|] == ':' && forall k :: 0 <= k < |a| ==> (a + ":" + b)[k] != ':'
  {
  }

  lemma SplitAtColon(a: string, b: string, c: string, d: string)
    requires ':' !in a && ':' !in c && a + ":" + b == c + ":" + d
    ensures a == c && b == d
  {
    var s := a + ":" + b;
    FirstColon(a, b);
    FirstColon(c, d);
    assert a == s[..|a|] && c == s[..|c|] && b == s[|a| + 1..] && d == s[|c| + 1..];
  }

  lemma NoColon(id: Id)
    ensures ':' !in Text(id)
  {
    TextIsDigits(id);
  }

  /** Namespaces are told apart as the key table stores them. */
  lemma ScopeTextNames(k: KeyScope, l: KeyScope)
    requires ScopeText(k) == ScopeText(l)
    ensures k == l
  {
    assert ScopeText(k)[0] == ScopeText(l)[0];
    match (k, l)
    case (OfSelf(a), OfSelf(b)) =>
      assert Text(a) == ScopeText(k)[5..] && Text(b) == ScopeText(l)[5..];
      TextNames(a, b);
    case (OfProvider(a), OfProvider(b)) =>
      assert Text(a) == ScopeText(k)[9..] && Text(b) == ScopeText(l)[9..];
      TextNames(a, b);
    case (OfTenant(t, a), OfTenant(u, b)) =>
      assert ScopeText(k)[7..] == Text(t) + ":" + Text(a) && ScopeText(l)[7..] == Text(u) + ":" + Text(b);
      NoColon(t);
      NoColon(u);
      SplitAtColon(Text(t), Text(a), Text(u), Text(b));
      TextNames(t, u);
      TextNames(a, b);
    case _ =>
  }

  /** Two callers share a key namespace exactly when they are one Principal, acting for itself, as a provider, or in one Tenant. */
  lemma SharesKeysExactlyWhen(a: Caller, b: Caller)
    ensures ScopeText(ClaimScope(a)) == ScopeText(ClaimScope(b)) <==>
              && a.subject == b.subject && a.self == b.self
              && (!a.self ==> a.provider == b.provider) && (!a.self && !a.provider ==> a.tenant == b.tenant)
  {
    if ScopeText(ClaimScope(a)) == ScopeText(ClaimScope(b)) {
      ScopeTextNames(ClaimScope(a), ClaimScope(b));
    }
  }
}
