/**
 The provider authority service as it runs: statements in sequence and loops over rows, inside one
 transaction that commits whole or not at all. Each method is proved against its transaction
 function, and keeps the invariant.
 */
module ProviderService {
  import opened Base
  import opened Projection
  import opened Authority
  import opened AuthorityInvariant
  import opened AuthoritySteps
  import opened AuthorityRules

  class Service {
    var t: Tables

    ghost predicate Valid()
      reads this
    {
      Inv(t)
    }

    constructor (now: int, max: int)
      ensures Valid() && t == Init(now, max)
    {
      t := Init(now, max);
      new;
      RunKeeps(now, max, []);
    }

    /** The database clock moves on. */
    method Wait(elapsed: nat)
      requires Valid()
      modifies this
      ensures Valid() && t == Take(old(t), Tick(elapsed))
    {
      StepKeeps(t, Tick(elapsed));
      t := t.(now := t.now + elapsed);
    }

    /**
     Writes the event of a transition, after the transition is written: the version rises by one, the
     one event carries it, and says what the tables now confer. An unpublished scope says nothing.
     */
    method PublishGrant(g: nat)
      requires g < |t.grants|
      modifies this
      ensures t == Publish(old(t), g)
      ensures t == old(t).(grants := t.grants, events := t.events) && |t.grants| == |old(t).grants|
      ensures forall k :: 0 <= k < |t.grants| && k != g ==> t.grants[k] == old(t).grants[k]
      ensures old(t).grants[g].scope != IdentityControl ==> t == old(t)
      ensures old(t).grants[g].scope == IdentityControl ==>
                && t.grants[g] == old(t).grants[g].(version := old(t).grants[g].version + 1)
                && |t.events| == |old(t).events| + 1 && old(t).events <= t.events
                && t.events[|old(t).events|].key == g && t.events[|old(t).events|].version == t.grants[g].version
                && (OneOpen(t.activations, t.now) ==> Agrees(t, g, t.events[|old(t).events|].body))
    {
      if t.grants[g].scope != IdentityControl {
        return;
      }
      t := t.(grants := t.grants[g := t.grants[g].(version := t.grants[g].version + 1)]);
      ghost var bumped := t;
      t := t.(events := t.events + [Record(g, t.grants[g].version, StateOf(t, g))]);
      if OneOpen(t.activations, t.now) {
        StateAgrees(bumped, g);
        AgreesSame(bumped, t, g, StateOf(bumped, g));
      }
    }

    /** The first grant: at most two rows are read to decide. */
    method Bootstraps(principal: Id, operator: string, reason: string) returns (r: Result<(Grant, bool), Error>)
      requires Valid()
      modifies this
      ensures Valid() && t == Take(old(t), Bootstrap(principal, operator, reason))
      ensures r.Ok? <==> MayBootstrap(old(t), principal, operator, reason)
      ensures r.Err? ==> t == old(t) && r.error == if principal == NIL || !Says(operator) || !Says(reason) then Invalid else GrantsExist
      ensures r.Ok? ==> (r.value.1 <==> |old(t).grants| == 1) && r.value.0.scope == OrganizationControl && r.value.0.grantedBy == None
      ensures r.Ok? ==> t.grants == [r.value.0] && r.value.0.principal == principal && Active(r.value.0)
      ensures r.Ok? && r.value.1 ==> t == old(t)
    {
      StepKeeps(t, Bootstrap(principal, operator, reason));
      BootstrapExactlyWhen(t, principal, operator, reason);
      Unfold(t);
      if principal == NIL || Blank(operator) || Blank(reason) {
        return Err(Invalid);
      }
      var existing: seq<Grant> := [];
      var bootstrap: seq<bool> := [];
      while |existing| < |t.grants| && |existing| < 2
        invariant |existing| <= |t.grants| && |existing| <= 2 && t == old(t)
        invariant existing == t.grants[..|existing|] && |bootstrap| == |existing|
        invariant forall i :: 0 <= i < |existing| ==> (bootstrap[i] <==> existing[i].grantedBy.None?)
        decreases 2 - |existing|
      {
        var row := t.grants[|existing|];
        existing := existing + [row];
        bootstrap := bootstrap + [row.grantedBy.None?];
      }
      if |existing| == 1 && bootstrap[0] && existing[0].principal == principal {
        assert t.grants == existing;
        return Ok((existing[0], true));
      }
      if |existing| > 0 {
        return Err(GrantsExist);
      }
      var grant := Grant(principal, OrganizationControl, Emergency, None, t.now, None, 0);
      t := t.(grants := [grant]);
      return Ok((grant, false));
    }

    /** Grants a scope: the insert is refused where the Principal already holds it. */
    method Grants(caller: Id, principal: Id, scope: Scope, kind: Kind, reason: string) returns (r: Result<nat, Error>)
      requires Valid()
      modifies this
      ensures Valid() && t == Take(old(t), GrantStep(caller, principal, scope, kind, reason))
      ensures r.Ok? <==> MayGrant(old(t), principal, scope, reason)
      ensures r.Ok? ==> r.value == |old(t).grants| && Granted(old(t), t, caller, principal, scope, kind)
      ensures r.Err? ==> t == old(t) && GrantRefusedAs(old(t), principal, reason, r.error)
    {
      StepKeeps(t, GrantStep(caller, principal, scope, kind, reason));
      GrantExactlyWhen(t, caller, principal, scope, kind, reason);
      if t.grants == [] {
        return Err(NotAdmitted);
      }
      if principal == NIL || Blank(reason) {
        return Err(Invalid);
      }
      if Holder(t.grants, principal, scope) {
        return Err(AlreadyGranted);
      }
      var g := |t.grants|;
      t := t.(grants := t.grants + [Grant(principal, scope, kind, Some(caller), t.now, None, 0)]);
      PublishGrant(g);
      return Ok(g);
    }

    /** Ends a grant, unless it is the last that governs. */
    method Revokes(g: nat, reason: string) returns (r: Option<Error>)
      requires Valid()
      modifies this
      ensures Valid() && t == Take(old(t), Revoke(g, reason))
      ensures r.None? <==> MayRevoke(old(t), g, reason)
      ensures r.Some? ==> t == old(t) && RevokeRefusedAs(old(t), g, reason, r.value)
      ensures r.None? ==> OnlyPublished(old(t).(grants := old(t).grants[g := old(t).grants[g].(revokedAt := Some(old(t).now))]), t, g)
      ensures r.None? ==> g < |t.grants| && !Active(t.grants[g]) && exists k :: Governs(t.grants, k)
    {
      StepKeeps(t, Revoke(g, reason));
      RevokeExactlyWhen(t, g, reason);
      if Blank(reason) {
        return Some(Invalid);
      }
      var active: map<nat, Scope> := map[];
      var governing := 0;
      for k := 0 to |t.grants|
        invariant t == old(t)
        invariant forall i :: i in active <==> 0 <= i < k && Active(t.grants[i])
        invariant forall i :: i in active ==> active[i] == t.grants[i].scope
        invariant governing == CountGoverning(t.grants[..k])
      {
        assert t.grants[..k + 1][..k] == t.grants[..k];
        if Active(t.grants[k]) {
          active := active[k := t.grants[k].scope];
          if t.grants[k].scope == OrganizationControl {
            governing := governing + 1;
          }
        }
      }
      assert t.grants[..|t.grants|] == t.grants;
      if g !in active {
        return Some(if g < |t.grants| then AlreadyRevoked else GrantNotFound);
      }
      if active[g] == OrganizationControl && governing == 1 {
        return Some(LastGrant);
      }
      t := t.(grants := t.grants[g := t.grants[g].(revokedAt := Some(t.now))]);
      PublishGrant(g);
      Unfold(t);
      return None;
    }

    /** Asks to activate the caller's own grant. */
    method Requests(holder: Id, g: nat, duration: int, reason: string, approvalRequired: bool) returns (r: Result<Activation, Error>)
      requires Valid()
      modifies this
      ensures Valid() && t == Take(old(t), Request(holder, g, duration, reason, approvalRequired))
      ensures r.Ok? <==> MayRequest(old(t), holder, g, duration, reason)
      ensures r.Ok? ==> Requested(old(t), t, holder, g, duration, approvalRequired)
      ensures r.Ok? ==> t.activations != [] && r.value == t.activations[|t.activations| - 1]
                        && (InForce(r.value, t.now) <==> !approvalRequired)
      ensures r.Err? ==> t == old(t) && RequestRefusedAs(old(t), holder, g, duration, reason, r.error)
    {
      StepKeeps(t, Request(holder, g, duration, reason, approvalRequired));
      RequestExactlyWhen(t, holder, g, duration, reason, approvalRequired);
      if duration < SECOND {
        return Err(Invalid);
      }
      if duration > t.max {
        return Err(TooLong);
      }
      if Blank(reason) {
        return Err(Invalid);
      }
      if g >= |t.grants| || !Active(t.grants[g]) || t.grants[g].principal != holder {
        return Err(NotHolder);
      }
      if t.grants[g].kind == Emergency {
        return Err(EmergencyGrant);
      }
      if AnyInForce(t, g) {
        return Err(ActivationInForce);
      }
      var saved := t;
      t := t.(activations := Lapse(t.activations, g, t.now));
      if AnyPending(t.activations, g) {
        t := saved;
        return Err(ActivationPending);
      }
      var a := Activation(g, holder, t.grants[g].scope, duration / SECOND, approvalRequired, t.now, None, None, None, None, None);
      if !approvalRequired {
        a := Settle(a, holder, true, t.now);
      }
      t := t.(activations := t.activations + [a]);
      if !approvalRequired {
        PublishGrant(g);
      }
      return Ok(a);
    }

    /** Approves or denies a pending request, as another holder of its scope. */
    method Decides(decider: Id, i: nat, approve: bool, reason: string, serviceNow: int) returns (r: Option<Error>)
      requires Valid()
      modifies this
      ensures Valid() && t == Take(old(t), Decide(decider, i, approve, reason, serviceNow))
      ensures r.None? <==> MayDecide(old(t), decider, i, reason, serviceNow)
      ensures r.None? ==>
                && |t.activations| == |old(t).activations| && DecidedNow(old(t).activations[i], t.activations[i], decider, approve, old(t).now)
                && t.activations == old(t).activations[i := t.activations[i]]
                && (if approve then OnlyPublished(old(t).(activations := t.activations), t, old(t).activations[i].grant)
                    else t == old(t).(activations := t.activations))
      ensures r.None? ==> i < |t.activations| && t.activations[i].principal != decider && (InForce(t.activations[i], t.now) <==> approve)
      ensures r.Some? ==> t == old(t) && DecideRefusedAs(old(t), decider, i, reason, r.value)
    {
      StepKeeps(t, Decide(decider, i, approve, reason, serviceNow));
      GrantsThere(t);
      DecideExactlyWhen(t, decider, i, approve, reason, serviceNow);
      if Blank(reason) {
        return Some(Invalid);
      }
      if i >= |t.activations| {
        return Some(ActivationNotFound);
      }
      var a := t.activations[i];
      Unfold(t);
      assert ActivationOk(t, a);
      if !Holder(t.grants, decider, a.scope) {
        return Some(NotHolder);
      }
      if a.principal == decider {
        return Some(SelfApproval);
      }
      if a.decision.Some? || serviceNow - a.requestedAt > PENDING_LIFETIME {
        return Some(Decided);
      }
      t := t.(activations := t.activations[i := Settle(a, decider, approve, t.now)]);
      if approve {
        PublishGrant(a.grant);
      }
      return None;
    }

    /** Ends an activation early, as its holder or as a provider in force. */
    method Ends(caller: Id, i: nat, providerInForce: bool, reason: string) returns (r: Option<Error>)
      requires Valid()
      modifies this
      ensures Valid() && t == Take(old(t), End(caller, i, providerInForce, reason))
      ensures r.None? <==> MayEnd(old(t), caller, i, providerInForce, reason)
      ensures r.None? ==>
                OnlyPublished(old(t).(activations := old(t).activations[i := old(t).activations[i].(endedAt := Some(old(t).now))]), t, old(t).activations[i].grant)
      ensures r.None? ==> i < |t.activations| && InForce(old(t).activations[i], old(t).now) && !InForce(t.activations[i], t.now)
      ensures r.Some? ==> t == old(t) && EndRefusedAs(old(t), caller, i, providerInForce, reason, r.value)
    {
      StepKeeps(t, End(caller, i, providerInForce, reason));
      GrantsThere(t);
      EndExactlyWhen(t, caller, i, providerInForce, reason);
      if Blank(reason) {
        return Some(Invalid);
      }
      if i >= |t.activations| {
        return Some(ActivationNotFound);
      }
      var a := t.activations[i];
      Unfold(t);
      assert ActivationOk(t, a);
      if a.principal != caller && !providerInForce {
        return Some(NotHolder);
      }
      if !InForce(a, t.now) {
        return Some(NotInForce);
      }
      t := t.(activations := t.activations[i := a.(endedAt := Some(t.now))]);
      PublishGrant(a.grant);
      return None;
    }

    /** The withdrawn grants are read into a list, then published one by one at the version each holds. */
    method PublishWithdrawnGrants() returns (published: nat)
      modifies this
      ensures t == PublishWithdrawn(old(t), |old(t).grants|)
      ensures |t.events| == |old(t).events| + published
    {
      ghost var before := t;
      var withdrawn: seq<nat> := [];
      for g := 0 to |t.grants|
        invariant t == before && withdrawn == WithdrawnBelow(t, g)
      {
        if Withdrawn(t, g) {
          withdrawn := withdrawn + [g];
        }
      }
      PublishEachIsPublishWithdrawn(before, |before.grants|);
      for k := 0 to |withdrawn|
        invariant t == PublishEach(before, withdrawn[..k]) && |t.events| == |before.events| + k
      {
        assert withdrawn[..k + 1][..k] == withdrawn[..k];
        var g := withdrawn[k];
        t := t.(events := t.events + [Record(g, t.grants[g].version, StateOf(t, g))]);
      }
      assert withdrawn[..|withdrawn|] == withdrawn;
      return |withdrawn|;
    }

    /** The restore's bump: every version gains the margin, then the withdrawn grants are published. */
    method Bumps() returns (published: nat, ghost sent: seq<Record<GrantState>>)
      requires Valid()
      modifies this
      ensures Valid() && t == Take(old(t), Bump)
      ensures t.events == old(t).events + sent && |sent| == published && WithdrawsEach(t, sent, |t.grants|)
      ensures t.activations == old(t).activations && |t.grants| == |old(t).grants|
      ensures forall g :: 0 <= g < |t.grants| ==> t.grants[g] == old(t).grants[g].(version := old(t).grants[g].version + 1_000_000_000)
    {
      StepKeeps(t, Bump);
      sent := BumpExactly(t);
      t := t.(grants := Bumped(t.grants));
      published := PublishWithdrawnGrants();
    }
  }

  predicate Within(list: seq<nat>, n: nat) {
    forall k :: 0 <= k < |list| ==> list[k] < n
  }

  /** The identifiers the withdrawn read returns, in order. */
  function WithdrawnBelow(t: Tables, n: nat): (list: seq<nat>)
    requires n <= |t.grants|
    ensures Within(list, |t.grants|)
  {
    if n == 0 then [] else WithdrawnBelow(t, n - 1) + if Withdrawn(t, n - 1) then [n - 1] else []
  }

  /** Publishes each of a list of grants at the version it holds. */
  function PublishEach(t: Tables, list: seq<nat>): (r: Tables)
    requires Within(list, |t.grants|)
    ensures r == t.(events := r.events)
  {
    if list == [] then t
    else
      var before := PublishEach(t, list[..|list| - 1]);
      PublishAt(before, list[|list| - 1], t.grants[list[|list| - 1]].version)
  }

  lemma PublishEachAppend(t: Tables, list: seq<nat>, g: nat)
    requires Within(list, |t.grants|) && g < |t.grants|
    ensures Within(list + [g], |t.grants|) && PublishEach(t, list + [g]) == PublishAt(PublishEach(t, list), g, t.grants[g].version)
  {
    assert (list + [g])[..|list|] == list;
  }

  lemma {:induction false} PublishEachIsPublishWithdrawn(t: Tables, n: nat)
    requires n <= |t.grants|
    ensures PublishEach(t, WithdrawnBelow(t, n)) == PublishWithdrawn(t, n)
  {
    if n > 0 {
      PublishEachIsPublishWithdrawn(t, n - 1);
      if Withdrawn(t, n - 1) {
        PublishEachAppend(t, WithdrawnBelow(t, n - 1), n - 1);
      } else {
        assert WithdrawnBelow(t, n) == WithdrawnBelow(t, n - 1);
      }
    }
  }
}
