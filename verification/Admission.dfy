/**
 From a verified token to an open transaction (internal/httpapi/authentication.go, caller.go;
 internal/db/binding.go): the claims say who the caller is, this service's records say what it may
 act as, that becomes one isolation scope, and a scope opens only its own entry points, with evidence
 written first where the access is privileged.
 */
module Admission {
  import opened Base
  import A = Authority

  // ----- the token

  datatype TenantClaim = Absent | Malformed | Names(tenant: Id)

  /** `principal` is None when the claim is missing or is no identifier. */
  datatype Claims = Claims(principal: Option<Id>, subjectType: string, tenant: TenantClaim, acr: Option<string>, authTime: bool, owner: Option<string>)

  datatype Problem = Forbidden | RecordsUnavailable | Paused | Internal | WrongScope | ReasonRequired | Invalid

  datatype Presented = Presented(principal: Id, workload: bool, tenant: Id)

  predicate AtLeastAal2(acr: Option<string>) {
    acr == Some("aal2") || acr == Some("phr")
  }

  predicate Given(text: Option<string>) {
    text.Some? && !Blank(text.value)
  }

  /** A token with a Tenant is a person's with two factors; without one, a person's with its assurance or a workload's with its owner. */
  function Present(c: Claims): Result<Presented, Problem> {
    if c.principal.None? || c.principal.value == NIL then Err(Forbidden)
    else if c.subjectType != "human" && c.subjectType != "workload" then Err(Forbidden)
    else
      var workload := c.subjectType == "workload";
      if !c.tenant.Absent? then
        if c.tenant.Malformed? || c.tenant.tenant == NIL || workload || !AtLeastAal2(c.acr) || !c.authTime then Err(Forbidden)
        else Ok(Presented(c.principal.value, false, c.tenant.tenant))
      else if workload then
        if !Given(c.owner) then Err(Forbidden) else Ok(Presented(c.principal.value, true, NIL))
      else if !Given(c.acr) || !c.authTime then Err(Forbidden)
      else Ok(Presented(c.principal.value, false, NIL))
  }

  // ----- the records

  datatype Report = Provisioning | Obligation | InvitationResolve

  datatype Reports = ReportsProvisioning | ReportsInvitationResolve | ReportsObligation(domain: string)

  datatype TenantStanding = TenantStanding(member: bool, active: bool, granted: bool)

  /** `readable` is whether the records can be read at all. */
  datatype Records = Records(readable: bool, tables: A.Tables, tenants: map<(Id, Id), TenantStanding>, consumersConfigured: bool,
                             consumers: map<Id, string>, reporters: map<Id, (Id, Reports)>, paused: bool)

  predicate Administers(r: Records, principal: Id, tenant: Id) {
    (principal, tenant) in r.tenants && r.tenants[(principal, tenant)].member && r.tenants[(principal, tenant)].active
    && r.tenants[(principal, tenant)].granted
  }

  datatype Caller = Caller(subject: Id, tenant: Id, consumer: string, provider: bool, eligible: bool, emergency: bool,
                           activation: Option<nat>, reporter: Id, reports: Reports, self: bool)

  function Nobody(subject: Id): Caller {
    Caller(subject, NIL, "", false, false, false, None, NIL, ReportsProvisioning, false)
  }

  predicate Admits(reports: Reports, report: Report) {
    match report
    case Provisioning => reports.ReportsProvisioning?
    case Obligation => reports.ReportsObligation? && reports.domain != ""
    case InvitationResolve => reports.ReportsInvitationResolve?
  }

  /** One record per request: the Tenant's, the reporter's, the consumer's or the provider's. */
  function Authorize(p: Presented, report: Option<Report>, r: Records): Result<Caller, Problem> {
    if p.workload && p.tenant == NIL && report.None? && !r.consumersConfigured then Err(Forbidden)
    else if !r.readable then Err(RecordsUnavailable)
    else if p.tenant != NIL then
      if Administers(r, p.principal, p.tenant) then Ok(Nobody(p.principal).(tenant := p.tenant)) else Err(Forbidden)
    else if p.workload && report.Some? then
      if p.principal !in r.reporters || r.reporters[p.principal].0 == NIL || !Admits(r.reporters[p.principal].1, report.value) then Err(Forbidden)
      else Ok(Nobody(p.principal).(reporter := r.reporters[p.principal].0, reports := r.reporters[p.principal].1))
    else if p.workload then
      if p.principal !in r.consumers || r.consumers[p.principal] == "" then Err(Forbidden)
      else Ok(Nobody(p.principal).(consumer := r.consumers[p.principal]))
    else
      var standing := A.ProviderStanding(r.tables, p.principal);
      var inForce := standing.emergency || standing.activation.Some?;
      if !standing.holder then Err(Forbidden)
      else Ok(Nobody(p.principal).(provider := inForce, eligible := !inForce, emergency := standing.emergency, activation := standing.activation))
  }

  datatype Route = Contexts(target: Id) | AcceptInvitation | Reporting(report: Report) | Activations | Other

  function Identify(p: Presented, route: Route, r: Records): Result<Caller, Problem> {
    if route.Contexts? && !p.workload && route.target == p.principal then Ok(Nobody(p.principal).(self := true))
    else if route.AcceptInvitation? then
      if p.workload then Err(Forbidden) else Ok(Nobody(p.principal).(self := true))
    else Authorize(p, if route.Reporting? then Some(route.report) else None, r)
  }

  /** `changes` is whether the method can change state. */
  function Authenticate(c: Claims, route: Route, changes: bool, r: Records): Result<Caller, Problem> {
    var presented := Present(c);
    if presented.Err? then Err(presented.error)
    else
      var caller := Identify(presented.value, route, r);
      if caller.Err? then caller
      else if caller.value.tenant != NIL && changes then
        if !r.readable then Err(RecordsUnavailable) else if r.paused then Err(Paused) else caller
      else if caller.value.eligible && !route.Activations? then Err(Forbidden)
      else caller
  }

  // ----- whose idempotency keys

  /** The key's namespace. Identifiers have one text of one length, so the text form distinguishes what this does. */
  datatype KeyScope = OfSelf(subject: Id) | OfProvider(subject: Id) | OfTenant(tenant: Id, subject: Id)

  function ClaimScope(c: Caller): KeyScope {
    if c.self then OfSelf(c.subject) else if c.provider then OfProvider(c.subject) else OfTenant(c.tenant, c.subject)
  }

  /** An identifier's text: only that it has one matters. */
  function Text(id: Id): string {
    if id < 10 then ["0123456789"[id]] else Text(id / 10) + ["0123456789"[id % 10]]
  }

  /** The namespace as the key table stores it. */
  function ScopeText(k: KeyScope): string {
    match k
    case OfSelf(subject) => "self:" + Text(subject)
    case OfProvider(subject) => "provider:" + Text(subject)
    case OfTenant(tenant, subject) => "tenant:" + Text(tenant) + ":" + Text(subject)
  }

  // ----- the scope

  datatype Kind = Emergency | Activation | Eligible | Consumer | Reporter

  datatype Authority = Authority(kind: Kind, activation: Option<nat>)

  datatype Scope = Scope(tenant: Id, provider: bool, consumer: bool, self: bool, resolver: bool, actor: Id, correlation: Id,
                         acting: bool, authority: Option<Authority>)

  predicate ValidAuthority(a: Authority) {
    match a.kind
    case Emergency => a.activation.None?
    case Eligible => a.activation.None?
    case Reporter => a.activation.None?
    case Activation => a.activation.Some?
    case Consumer => false
  }

  function TenantScope(tenant: Id, actor: Id, correlation: Id): Result<Scope, Problem> {
    if tenant == NIL || actor == NIL then Err(Internal)
    else Ok(Scope(tenant, false, false, false, false, actor, correlation, false, None))
  }

  function ProviderScope(actor: Id, correlation: Id, authority: Authority): Result<Scope, Problem> {
    if actor == NIL || correlation == NIL || !ValidAuthority(authority) then Err(Internal)
    else Ok(Scope(NIL, true, false, false, false, actor, correlation, false, Some(authority)))
  }

  function ConsumerScope(actor: Id, correlation: Id): Result<Scope, Problem> {
    if actor == NIL || correlation == NIL then Err(Internal)
    else Ok(Scope(NIL, false, true, false, false, actor, correlation, false, Some(Authority(Consumer, None))))
  }

  function SelfScope(actor: Id, correlation: Id): Result<Scope, Problem> {
    if actor == NIL || correlation == NIL then Err(Internal)
    else Ok(Scope(NIL, false, false, true, false, actor, correlation, false, None))
  }

  function ResolverScope(actor: Id, correlation: Id): Result<Scope, Problem> {
    if actor == NIL || correlation == NIL then Err(Internal)
    else Ok(Scope(NIL, false, false, false, true, actor, correlation, false, Some(Authority(Reporter, None))))
  }

  function Resolve(c: Caller, correlation: Id): Result<Scope, Problem> {
    if c.self then
      if c.provider || c.eligible || c.consumer != "" || c.tenant != NIL || c.reporter != NIL then Err(Internal)
      else SelfScope(c.subject, correlation)
    else if c.reporter != NIL then
      if c.provider || c.eligible || c.consumer != "" || c.tenant != NIL then Err(Internal)
      else if c.reports.ReportsInvitationResolve? then ResolverScope(c.subject, correlation)
      else ProviderScope(c.subject, correlation, Authority(Reporter, None))
    else if c.consumer != "" then
      if c.provider || c.tenant != NIL then Err(Internal) else ConsumerScope(c.subject, correlation)
    else if c.provider || c.eligible then
      if c.tenant != NIL then Err(Internal)
      else ProviderScope(c.subject, correlation,
                         if c.eligible && !c.provider then Authority(Eligible, None)
                         else if c.emergency then Authority(Emergency, None)
                         else Authority(Activation, c.activation))
    else TenantScope(c.tenant, c.subject, correlation)
  }

  // ----- entry points

  datatype Entry =
    | WithTenantScope | WithTenantRead
    | WithSelfRead | WithSelfInvitation(hash: string) | WithSelfInTenant(tenant: Id)
    | WithInvitationResolver(hash: string)
    | WithProviderInTenant(tenant: Id) | WithProviderScope | WithProviderSnapshot | WithResolutionScope
    | WithConsumerScope | WithConsumerSnapshot | WithConsumerReconciliation | WithConsumerReconciliationSnapshot

  /** The entry points that write evidence before they open. */
  predicate Recorded(e: Entry) {
    e.WithInvitationResolver? || e.WithProviderInTenant? || e.WithProviderScope? || e.WithProviderSnapshot? || e.WithResolutionScope?
    || ForConsumer(e)
  }

  predicate ForConsumer(e: Entry) {
    e.WithConsumerScope? || e.WithConsumerSnapshot? || e.WithConsumerReconciliation? || e.WithConsumerReconciliationSnapshot?
  }

  /** The checks each entry point makes, in its own order. */
  function Refusal(s: Scope, e: Entry, reason: string): Option<Problem> {
    match e
    case WithTenantScope => if s.provider then Some(WrongScope) else if s.consumer || s.self || s.tenant == NIL then Some(WrongScope) else None
    case WithTenantRead => if s.provider || s.consumer || s.self || s.tenant == NIL then Some(WrongScope) else None
    case WithSelfRead => if !s.self then Some(WrongScope) else None
    case WithSelfInvitation(hash) => if hash == "" then Some(Invalid) else if !s.self then Some(WrongScope) else None
    case WithSelfInTenant(tenant) => if !s.self then Some(WrongScope) else if tenant == NIL then Some(Invalid) else None
    case WithInvitationResolver(hash) => if hash == "" then Some(Invalid) else if !s.resolver then Some(WrongScope) else None
    case WithProviderInTenant(tenant) =>
      if !s.provider then Some(WrongScope) else if tenant == NIL then Some(Invalid) else if reason == "" then Some(ReasonRequired) else None
    case _ =>
      if s.self then Some(WrongScope)
      else if ForConsumer(e) && !s.consumer then Some(WrongScope)
      else if !ForConsumer(e) && !s.provider then Some(WrongScope)
      else if reason == "" then Some(ReasonRequired)
      else None
  }

  /** The scope the body runs in. */
  function Inner(s: Scope, e: Entry): Scope {
    match e
    case WithSelfInTenant(tenant) => Scope(tenant, false, false, false, false, s.actor, s.correlation, false, None)
    case WithProviderInTenant(tenant) => Scope(tenant, false, false, false, false, s.actor, s.correlation, true, s.authority)
    case _ => s
  }

  datatype Access = Access(actor: Id, correlation: Id, reason: string, authority: Option<Authority>, tenant: Id)

  /** The Tenant a provider act is bound to, or the one the route's path names. */
  function Evidence(s: Scope, reason: string, routeTenant: Id): Access {
    Access(s.actor, s.correlation, reason, s.authority, if s.acting then s.tenant else routeTenant)
  }

  function EvidenceOf(s: Scope, e: Entry, reason: string, routeTenant: Id): Access {
    match e
    case WithInvitationResolver(_) => Evidence(s, "invitation:resolve", NIL)
    case WithProviderInTenant(_) => Evidence(Inner(s, e), reason, routeTenant)
    case _ => Evidence(s, reason, routeTenant)
  }

  /** The entry points that claim the request's idempotency key inside their transaction. */
  predicate MakesClaim(e: Entry) {
    e.WithTenantScope? || e.WithSelfInTenant? || e.WithProviderInTenant? || e.WithProviderScope? || e.WithResolutionScope?
    || e.WithConsumerScope? || e.WithConsumerReconciliation?
  }

  /** The entry points whose transaction the database holds to reading. */
  predicate ReadOnly(e: Entry) {
    e.WithTenantRead? || e.WithSelfRead? || e.WithSelfInvitation? || e.WithInvitationResolver?
    || e.WithProviderSnapshot? || e.WithConsumerSnapshot? || e.WithConsumerReconciliationSnapshot?
  }

  // ----- kinds of scope

  function Count(b: bool): nat {
    if b then 1 else 0
  }

  /** Exactly one of the five kinds, and an authority exactly where a record names one. */
  predicate OneKind(s: Scope) {
    && Count(s.provider) + Count(s.consumer) + Count(s.self) + Count(s.resolver) + Count(s.tenant != NIL) == 1
    && s.actor != NIL && (s.acting ==> s.tenant != NIL)
    && (s.authority.Some? <==> s.provider || s.consumer || s.resolver || s.acting)
    && (s.authority.Some? ==> ValidAuthority(s.authority.value) || s.authority.value == Authority(Consumer, None))
    && (s.provider || s.acting ==> ValidAuthority(s.authority.value))
  }
}
