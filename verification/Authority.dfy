/**
 Provider grants, their timed activations, and the events that publish them
 (internal/authority/authority.go, administration.go, activation.go, publication.go). A row's
 identifier is its position in its table: identifiers are minted in order and never reused. Each
 transaction is one atomic function of the tables; `now` is the database clock at the transaction.
 */
module Authority {
  import opened Base
  import opened Projection

  /** provider:organization-control is enforced here; provider:identity-control is published. */
  datatype Scope = OrganizationControl | IdentityControl

  datatype Kind = Eligible | Emergency

  datatype Decision = Approved | Denied | Lapsed

  datatype Grant = Grant(principal: Id, scope: Scope, kind: Kind, grantedBy: Option<Id>, grantedAt: int,
                         revokedAt: Option<int>, version: int)

  datatype Activation = Activation(grant: nat, principal: Id, scope: Scope, seconds: int, approvalRequired: bool,
                                   requestedAt: int, decidedBy: Option<Id>, decision: Option<Decision>,
                                   decidedAt: Option<int>, endsAt: Option<int>, endedAt: Option<int>)

  datatype ActivationState = ActivationState(activation: nat, endsAt: int)

  /** A published event's payload: what the grant confers. */
  datatype GrantState = GrantState(principal: Id, scope: Scope, kind: Kind, revoked: bool, activation: Option<ActivationState>)

  /** `max` is the longest activation this deployment allows. */
  datatype Tables = Tables(now: int, max: int, grants: seq<Grant>, activations: seq<Activation>, events: seq<Record<GrantState>>)

  const PENDING_LIFETIME := 24 * 60 * 60 * SECOND

  /** What a restore adds to every grant version. */
  const MARGIN := 1_000_000_000

  datatype Error =
    | Invalid | NotAdmitted | AlreadyGranted | GrantNotFound | AlreadyRevoked | LastGrant | TooLong | NotHolder
    | EmergencyGrant | ActivationInForce | ActivationPending | ActivationNotFound | Decided | SelfApproval
    | NotInForce | GrantsExist

  // ----- reads

  predicate InForce(a: Activation, at: int) {
    a.decision == Some(Approved) && a.endedAt.None? && a.endsAt.Some? && at < a.endsAt.value
  }

  /** The activation of the grant in force that ends last: ORDER BY ends_at DESC LIMIT 1. */
  function Top(activations: seq<Activation>, g: nat, now: int): Option<nat> {
    if activations == [] then None
    else
      var n := |activations| - 1;
      var rest := Top(activations[..n], g, now);
      if activations[n].grant != g || !InForce(activations[n], now) then rest
      else if rest.Some? && rest.value < n && activations[rest.value].endsAt.Some?
              && activations[rest.value].endsAt.value >= activations[n].endsAt.value then rest
      else Some(n)
  }

  predicate Active(g: Grant) {
    g.revokedAt.None?
  }

  predicate Holder(grants: seq<Grant>, principal: Id, scope: Scope) {
    exists g :: 0 <= g < |grants| && grants[g].principal == principal && grants[g].scope == scope && Active(grants[g])
  }

  predicate AnyInForce(t: Tables, g: nat) {
    exists i :: 0 <= i < |t.activations| && t.activations[i].grant == g && InForce(t.activations[i], t.now)
  }

  predicate AnyPending(activations: seq<Activation>, g: nat) {
    exists i :: 0 <= i < |activations| && activations[i].grant == g && activations[i].decision.None?
  }

  function CountGoverning(grants: seq<Grant>): nat {
    if grants == [] then 0
    else CountGoverning(grants[..|grants| - 1])
         + if Active(grants[|grants| - 1]) && grants[|grants| - 1].scope == OrganizationControl then 1 else 0
  }

  // ----- publication

  /** What the grant confers now. A revoked grant carries no activation. */
  function StateOf(t: Tables, g: nat): GrantState
    requires g < |t.grants|
  {
    var row := t.grants[g];
    var top := Top(t.activations, g, t.now);
    GrantState(row.principal, row.scope, row.kind, !Active(row),
               if Active(row) && top.Some? && top.value < |t.activations| && t.activations[top.value].endsAt.Some?
               then Some(ActivationState(top.value, t.activations[top.value].endsAt.value)) else None)
  }

  function PublishAt(t: Tables, g: nat, version: int): Tables
    requires g < |t.grants|
  {
    t.(events := t.events + [Record(g, version, StateOf(t, g))])
  }

  /** Bumps the version and publishes the state the transition produced, when the scope is published. */
  function Publish(t: Tables, g: nat): Tables
    requires g < |t.grants|
  {
    if t.grants[g].scope != IdentityControl then t
    else
      var version := t.grants[g].version + 1;
      PublishAt(t.(grants := t.grants[g := t.grants[g].(version := version)]), g, version)
  }

  /** Confers nothing now: revoked, or eligible with no approved activation in force. */
  predicate Withdrawn(t: Tables, g: nat)
    requires g < |t.grants|
  {
    t.grants[g].scope == IdentityControl
    && (!Active(t.grants[g]) || (t.grants[g].kind == Eligible && !AnyInForce(t, g)))
  }

  /** The withdrawn grants below n, in order, each published at the version it holds. */
  function PublishWithdrawn(t: Tables, n: nat): Tables
    requires n <= |t.grants|
    ensures PublishWithdrawn(t, n).grants == t.grants && PublishWithdrawn(t, n).activations == t.activations
    ensures PublishWithdrawn(t, n).now == t.now && PublishWithdrawn(t, n).max == t.max
  {
    if n == 0 then t
    else
      var before := PublishWithdrawn(t, n - 1);
      if Withdrawn(t, n - 1) then PublishAt(before, n - 1, t.grants[n - 1].version) else before
  }

  function Bumped(grants: seq<Grant>): seq<Grant> {
    seq(|grants|, i requires 0 <= i < |grants| => grants[i].(version := grants[i].version + MARGIN))
  }

  // ----- transactions

  /** The first grant. Reads at most two rows, oldest first. */
  function BootstrapTx(t: Tables, principal: Id, operator: string, reason: string): Result<(Tables, bool), Error> {
    var existing := t.grants[..if |t.grants| < 2 then |t.grants| else 2];
    if principal == NIL || Blank(operator) || Blank(reason) then Err(Invalid)
    else if |existing| == 1 && existing[0].grantedBy.None? && existing[0].principal == principal then Ok((t, true))
    else if |existing| > 0 then Err(GrantsExist)
    else Ok((t.(grants := [Grant(principal, OrganizationControl, Emergency, None, t.now, None, 0)]), false))
  }

  /** Only a provider the records know reaches this: there is none before the bootstrap. */
  function GrantTx(t: Tables, caller: Id, principal: Id, scope: Scope, kind: Kind, reason: string): Result<Tables, Error> {
    if t.grants == [] then Err(NotAdmitted)
    else if principal == NIL || Blank(reason) then Err(Invalid)
    else if Holder(t.grants, principal, scope) then Err(AlreadyGranted)
    else
      var row := Grant(principal, scope, kind, Some(caller), t.now, None, 0);
      Ok(Publish(t.(grants := t.grants + [row]), |t.grants|))
  }

  function RevokeTx(t: Tables, g: nat, reason: string): Result<Tables, Error> {
    if Blank(reason) then Err(Invalid)
    else if g >= |t.grants| then Err(GrantNotFound)
    else if !Active(t.grants[g]) then Err(AlreadyRevoked)
    else if t.grants[g].scope == OrganizationControl && CountGoverning(t.grants) == 1 then Err(LastGrant)
    else Ok(Publish(t.(grants := t.grants[g := t.grants[g].(revokedAt := Some(t.now))]), g))
  }

  function Lapse(activations: seq<Activation>, g: nat, now: int): seq<Activation> {
    seq(|activations|, i requires 0 <= i < |activations| =>
      var a := activations[i];
      if a.grant == g && a.decision.None? && a.requestedAt <= now - PENDING_LIFETIME
      then a.(decision := Some(Lapsed), decidedAt := Some(now)) else a)
  }

  function Settle(a: Activation, decider: Id, approve: bool, now: int): Activation {
    a.(decidedBy := Some(decider), decision := Some(if approve then Approved else Denied), decidedAt := Some(now),
       endsAt := if approve then Some(now + a.seconds * SECOND) else None)
  }

  function RequestTx(t: Tables, holder: Id, g: nat, duration: int, reason: string, approvalRequired: bool): Result<Tables, Error> {
    if duration < SECOND then Err(Invalid)
    else if duration > t.max then Err(TooLong)
    else if Blank(reason) then Err(Invalid)
    else if g >= |t.grants| || !Active(t.grants[g]) || t.grants[g].principal != holder then Err(NotHolder)
    else if t.grants[g].kind == Emergency then Err(EmergencyGrant)
    else if AnyInForce(t, g) then Err(ActivationInForce)
    else
      var lapsed := Lapse(t.activations, g, t.now);
      if AnyPending(lapsed, g) then Err(ActivationPending)
      else
        var a := Activation(g, holder, t.grants[g].scope, duration / SECOND, approvalRequired, t.now, None, None, None, None, None);
        if approvalRequired then Ok(t.(activations := lapsed + [a]))
        else Ok(Publish(t.(activations := lapsed + [Settle(a, holder, true, t.now)]), g))
  }

  /** `serviceNow` is the service's own clock, which need not agree with the database's. */
  function DecideTx(t: Tables, decider: Id, i: nat, approve: bool, reason: string, serviceNow: int): Result<Tables, Error> {
    if Blank(reason) then Err(Invalid)
    else if i >= |t.activations| then Err(ActivationNotFound)
    else
      var a := t.activations[i];
      if !Holder(t.grants, decider, a.scope) then Err(NotHolder)
      else if a.principal == decider then Err(SelfApproval)
      else if a.decision.Some? then Err(Decided)
      else if serviceNow - a.requestedAt > PENDING_LIFETIME then Err(Decided)
      else
        var t' := t.(activations := t.activations[i := Settle(a, decider, approve, t.now)]);
        Ok(if approve && a.grant < |t.grants| then Publish(t', a.grant) else t')
  }

  function EndTx(t: Tables, caller: Id, i: nat, providerInForce: bool, reason: string): Result<Tables, Error> {
    if Blank(reason) then Err(Invalid)
    else if i >= |t.activations| then Err(ActivationNotFound)
    else
      var a := t.activations[i];
      if a.principal != caller && !providerInForce then Err(NotHolder)
      else if !InForce(a, t.now) then Err(NotInForce)
      else
        var t' := t.(activations := t.activations[i := a.(endedAt := Some(t.now))]);
        Ok(if a.grant < |t.grants| then Publish(t', a.grant) else t')
  }

  /** The bump a restore runs before the service serves. */
  function BumpTx(t: Tables): Tables {
    var t' := t.(grants := Bumped(t.grants));
    PublishWithdrawn(t', |t'.grants|)
  }

  // ----- runs

  datatype Step =
    | Tick(elapsed: nat)
    | Bootstrap(principal: Id, operator: string, reason: string)
    | GrantStep(caller: Id, principal: Id, scope: Scope, kind: Kind, reason: string)
    | Revoke(g: nat, reason: string)
    | Request(holder: Id, g: nat, duration: int, reason: string, approvalRequired: bool)
    | Decide(decider: Id, i: nat, approve: bool, reason: string, serviceNow: int)
    | End(caller: Id, i: nat, providerInForce: bool, reason: string)
    | Bump

  function OrSame(t: Tables, r: Result<Tables, Error>): Tables {
    if r.Ok? then r.value else t
  }

  function Take(t: Tables, s: Step): Tables {
    match s
    case Tick(elapsed) => t.(now := t.now + elapsed)
    case Bootstrap(principal, operator, reason) =>
      var r := BootstrapTx(t, principal, operator, reason);
      if r.Ok? then r.value.0 else t
    case GrantStep(caller, principal, scope, kind, reason) => OrSame(t, GrantTx(t, caller, principal, scope, kind, reason))
    case Revoke(g, reason) => OrSame(t, RevokeTx(t, g, reason))
    case Request(holder, g, duration, reason, approvalRequired) =>
      OrSame(t, RequestTx(t, holder, g, duration, reason, approvalRequired))
    case Decide(decider, i, approve, reason, serviceNow) => OrSame(t, DecideTx(t, decider, i, approve, reason, serviceNow))
    case End(caller, i, providerInForce, reason) => OrSame(t, EndTx(t, caller, i, providerInForce, reason))
    case Bump => BumpTx(t)
  }

  function Exec(t: Tables, steps: seq<Step>): Tables {
    if steps == [] then t else Take(Exec(t, steps[..|steps| - 1]), steps[|steps| - 1])
  }

  function Init(now: int, max: int): Tables {
    Tables(now, max, [], [], [])
  }

  // ----- what the records mean

  /** The authoritative tables confer the grant's authority at the instant. */
  ghost predicate TablesConfer(t: Tables, g: nat, at: int) {
    && g < |t.grants| && Active(t.grants[g])
    && (t.grants[g].kind == Emergency
        || exists i :: 0 <= i < |t.activations| && t.activations[i].grant == g && InForce(t.activations[i], at))
  }

  /** A consumer's copy confers it, on the consumer's own clock. */
  predicate StateConfers(s: GrantState, at: int) {
    !s.revoked && (s.kind == Emergency || (s.activation.Some? && at < s.activation.value.endsAt))
  }

  /** ProviderStanding's answers for one Principal. */
  datatype Standing = Standing(holder: bool, emergency: bool, activation: Option<nat>)

  predicate StandsOn(t: Tables, principal: Id, i: nat) {
    && i < |t.activations| && t.activations[i].principal == principal && t.activations[i].scope == OrganizationControl
    && t.activations[i].grant < |t.grants| && Active(t.grants[t.activations[i].grant])
    && InForce(t.activations[i], t.now)
  }

  /** The lowest-numbered activation below n the standing rests on: ORDER BY activation_id LIMIT 1. */
  function FirstStanding(t: Tables, principal: Id, n: nat): Option<nat> {
    if n == 0 then None
    else
      var rest := FirstStanding(t, principal, n - 1);
      if rest.Some? then rest else if StandsOn(t, principal, n - 1) then Some(n - 1) else None
  }

  function ProviderStanding(t: Tables, principal: Id): Standing {
    Standing(exists g :: 0 <= g < |t.grants| && t.grants[g].principal == principal && Active(t.grants[g]),
             exists g :: 0 <= g < |t.grants| && t.grants[g].principal == principal && Active(t.grants[g])
                         && t.grants[g].scope == OrganizationControl && t.grants[g].kind == Emergency,
             FirstStanding(t, principal, |t.activations|))
  }
}
