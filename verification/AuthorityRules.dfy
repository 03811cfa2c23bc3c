/**
 When each provider command succeeds, why it is refused, and what it leaves, said of the tables' own
 fields and the clocks (internal/authority/administration.go, activation.go); and how long an
 activation is in force for what was asked.
 */
module AuthorityRules {
  import opened Base
  import opened Projection
  import opened Authority
  import opened AuthorityInvariant
  import opened AuthoritySteps

  const DAY := 24 * 60 * 60 * 1_000_000_000

  // ----- what the fields say

  ghost predicate Unrevoked(t: Tables, g: nat) {
    g < |t.grants| && t.grants[g].revokedAt == None
  }

  /** Some unrevoked grant of the scope is the Principal's. */
  ghost predicate HoldsScope(t: Tables, principal: Id, scope: Scope) {
    exists g :: 0 <= g < |t.grants| && t.grants[g].revokedAt == None && t.grants[g].principal == principal && t.grants[g].scope == scope
  }

  /** Approved, not ended, and its end is still to come. */
  ghost predicate Running(a: Activation, at: int) {
    a.decision == Some(Approved) && a.endedAt == None && a.endsAt.Some? && a.endsAt.value > at
  }

  ghost predicate SomeRunning(t: Tables, g: nat) {
    exists i :: 0 <= i < |t.activations| && t.activations[i].grant == g && Running(t.activations[i], t.now)
  }

  /** Asked for less than a day ago, by the database's clock, and not decided. */
  ghost predicate Waiting(a: Activation, now: int) {
    a.decision == None && now < a.requestedAt + DAY
  }

  ghost predicate SomeWaiting(t: Tables, g: nat) {
    exists i :: 0 <= i < |t.activations| && t.activations[i].grant == g && Waiting(t.activations[i], t.now)
  }

  /** The event says what the grant confers now: an activation exactly while one runs under an unrevoked grant, with its end. */
  ghost predicate Tells(t: Tables, g: nat, s: GrantState)
    requires g < |t.grants|
  {
    var row := t.grants[g];
    && s.principal == row.principal && s.scope == row.scope && s.kind == row.kind && s.revoked == (row.revokedAt != None)
    && (s.activation.Some? <==> row.revokedAt == None && SomeRunning(t, g))
    && (s.activation.Some? ==>
          && s.activation.value.activation < |t.activations| && t.activations[s.activation.value.activation].grant == g
          && Running(t.activations[s.activation.value.activation], t.now)
          && t.activations[s.activation.value.activation].endsAt == Some(s.activation.value.endsAt))
  }

  /** The tables but for one grant's version, and for events, are as they were. */
  ghost predicate OnlyPublished(t: Tables, t': Tables, g: nat) {
    && t'.now == t.now && t'.max == t.max && t'.activations == t.activations && |t'.grants| == |t.grants|
    && (forall k :: 0 <= k < |t.grants| ==> t'.grants[k] == t.grants[k].(version := t'.grants[k].version))
    && (forall k :: 0 <= k < |t.grants| && k != g ==> t'.grants[k] == t.grants[k])
    && t.events <= t'.events
    && (g < |t.grants| ==>
          if t.grants[g].scope == IdentityControl
          then t'.grants[g].version == t.grants[g].version + 1 && |t'.events| == |t.events| + 1
               && t'.events[|t.events|].key == g && t'.events[|t.events|].version == t'.grants[g].version
               && Tells(t', g, t'.events[|t.events|].body)
          else t' == t)
  }

  lemma StateTells(t: Tables, g: nat)
    requires g < |t.grants|
    ensures Tells(t, g, StateOf(t, g))
  {
    TopIsInForce(t.activations, g, t.now);
    if SomeRunning(t, g) {
      var i :| 0 <= i < |t.activations| && t.activations[i].grant == g && Running(t.activations[i], t.now);
      assert InForce(t.activations[i], t.now);
    }
  }

  lemma PublishOnly(t: Tables, g: nat)
    requires g < |t.grants|
    ensures OnlyPublished(t, Publish(t, g), g)
  {
    StateTells(Publish(t, g), g);
    StateTells(t.(grants := Publish(t, g).grants), g);
  }

  lemma HolderExactlyWhen(t: Tables, principal: Id, scope: Scope)
    ensures Holder(t.grants, principal, scope) <==> HoldsScope(t, principal, scope)
  {
    if Holder(t.grants, principal, scope) {
      var g :| 0 <= g < |t.grants| && t.grants[g].principal == principal && t.grants[g].scope == scope && Active(t.grants[g]);
      assert t.grants[g].revokedAt == None;
    }
    if HoldsScope(t, principal, scope) {
      var g :| 0 <= g < |t.grants| && t.grants[g].revokedAt == None && t.grants[g].principal == principal && t.grants[g].scope == scope;
      assert Active(t.grants[g]);
    }
  }

  lemma InForceExactlyWhen(a: Activation, at: int)
    ensures InForce(a, at) <==> Running(a, at)
  {
  }

  // ----- the first grant

  ghost predicate MayBootstrap(t: Tables, principal: Id, operator: string, reason: string) {
    && principal != NIL && Says(operator) && Says(reason)
    && (|t.grants| == 0 || (|t.grants| == 1 && t.grants[0].grantedBy == None && t.grants[0].principal == principal))
  }

  lemma BootstrapExactlyWhen(t: Tables, principal: Id, operator: string, reason: string)
    ensures
      var r := BootstrapTx(t, principal, operator, reason);
      && (r.Ok? <==> MayBootstrap(t, principal, operator, reason))
      && (r.Ok? ==> (r.value.1 <==> |t.grants| == 1))
      && (r.Ok? && r.value.1 ==> r.value.0 == t)
      && (r.Ok? && !r.value.1 ==> r.value.0 == t.(grants := [Grant(principal, OrganizationControl, Emergency, None, t.now, None, 0)]))
      && (r.Err? ==> r.error == if principal == NIL || !Says(operator) || !Says(reason) then Invalid else GrantsExist)
  {
    SaysExactlyWhen(operator);
    SaysExactlyWhen(reason);
  }

  /** Every activation is of a grant that is there. */
  lemma GrantsThere(t: Tables)
    requires Inv(t)
    ensures forall k :: 0 <= k < |t.activations| ==> t.activations[k].grant < |t.grants|
  {
    Unfold(t);
    forall k | 0 <= k < |t.activations| ensures t.activations[k].grant < |t.grants| {
      assert ActivationOk(t, t.activations[k]);
    }
  }

  // ----- granting and revoking

  ghost predicate MayGrant(t: Tables, principal: Id, scope: Scope, reason: string) {
    |t.grants| > 0 && principal != NIL && Says(reason) && !HoldsScope(t, principal, scope)
  }

  ghost predicate GrantRefusedAs(t: Tables, principal: Id, reason: string, error: Error) {
    if |t.grants| == 0 then error == NotAdmitted
    else if principal == NIL || !Says(reason) then error == Invalid
    else error == AlreadyGranted
  }

  /** One more unrevoked grant, published where its scope is. */
  ghost predicate Granted(t: Tables, t': Tables, caller: Id, principal: Id, scope: Scope, kind: Kind) {
    var row := Grant(principal, scope, kind, Some(caller), t.now, None, 0);
    OnlyPublished(t.(grants := t.grants + [row]), t', |t.grants|)
  }

  lemma GrantExactlyWhen(t: Tables, caller: Id, principal: Id, scope: Scope, kind: Kind, reason: string)
    ensures
      var r := GrantTx(t, caller, principal, scope, kind, reason);
      && (r.Ok? <==> MayGrant(t, principal, scope, reason))
      && (r.Ok? ==> Granted(t, r.value, caller, principal, scope, kind))
      && (r.Err? ==> GrantRefusedAs(t, principal, reason, r.error))
  {
    SaysExactlyWhen(reason);
    HolderExactlyWhen(t, principal, scope);
    var row := Grant(principal, scope, kind, Some(caller), t.now, None, 0);
    PublishOnly(t.(grants := t.grants + [row]), |t.grants|);
  }

  /** No other unrevoked grant lets somebody grant again. */
  ghost predicate LastGoverning(t: Tables, g: nat) {
    && Unrevoked(t, g) && t.grants[g].scope == OrganizationControl
    && forall k :: 0 <= k < |t.grants| && k != g && t.grants[k].revokedAt == None ==> t.grants[k].scope != OrganizationControl
  }

  ghost predicate MayRevoke(t: Tables, g: nat, reason: string) {
    Says(reason) && Unrevoked(t, g) && !LastGoverning(t, g)
  }

  ghost predicate RevokeRefusedAs(t: Tables, g: nat, reason: string, error: Error) {
    if !Says(reason) then error == Invalid
    else if g >= |t.grants| then error == GrantNotFound
    else if t.grants[g].revokedAt != None then error == AlreadyRevoked
    else error == LastGrant
  }

  lemma {:induction false} CountedOnce(grants: seq<Grant>, g: nat)
    requires g < |grants| && Governs(grants, g) && forall k :: 0 <= k < |grants| && k != g ==> !Governs(grants, k)
    ensures CountGoverning(grants) == 1
  {
    var n := |grants| - 1;
    var rest := grants[..n];
    assert forall k :: 0 <= k < n ==> rest[k] == grants[k];
    if g == n {
      forall k | 0 <= k < n ensures !Governs(rest, k) {
        assert !Governs(grants, k);
      }
      CountedNone(rest);
    } else {
      assert Governs(rest, g);
      forall k | 0 <= k < n && k != g ensures !Governs(rest, k) {
        assert !Governs(grants, k);
      }
      CountedOnce(rest, g);
      assert !Governs(grants, n);
    }
  }

  lemma {:induction false} CountedNone(grants: seq<Grant>)
    requires forall k :: 0 <= k < |grants| ==> !Governs(grants, k)
    ensures CountGoverning(grants) == 0
  {
    if grants != [] {
      var n := |grants| - 1;
      forall k | 0 <= k < n ensures !Governs(grants[..n], k) {
        assert !Governs(grants, k);
      }
      CountedNone(grants[..n]);
      assert !Governs(grants, n);
    }
  }

  lemma {:induction false} CountedTwice(grants: seq<Grant>, g: nat, h: nat)
    requires g < h < |grants| && Governs(grants, g) && Governs(grants, h)
    ensures CountGoverning(grants) > 1
  {
    var n := |grants| - 1;
    var rest := grants[..n];
    assert Governs(rest, g);
    if h < n {
      assert Governs(rest, h);
      CountedTwice(rest, g, h);
    } else if CountGoverning(rest) == 0 {
      CountedSome(rest, g);
    }
  }

  lemma {:induction false} CountedSome(grants: seq<Grant>, g: nat)
    requires g < |grants| && Governs(grants, g)
    ensures CountGoverning(grants) > 0
  {
    var n := |grants| - 1;
    if g < n {
      assert Governs(grants[..n], g);
      CountedSome(grants[..n], g);
    }
  }

  lemma LastExactlyWhen(t: Tables, g: nat)
    requires Unrevoked(t, g) && t.grants[g].scope == OrganizationControl
    ensures CountGoverning(t.grants) == 1 <==> LastGoverning(t, g)
  {
    assert Governs(t.grants, g);
    if LastGoverning(t, g) {
      CountedOnce(t.grants, g);
    } else {
      var k :| 0 <= k < |t.grants| && k != g && t.grants[k].revokedAt == None && t.grants[k].scope == OrganizationControl;
      assert Governs(t.grants, k);
      CountedTwice(t.grants, if g < k then g else k, if g < k then k else g);
    }
  }

  lemma RevokeExactlyWhen(t: Tables, g: nat, reason: string)
    ensures
      var r := RevokeTx(t, g, reason);
      && (r.Ok? <==> MayRevoke(t, g, reason))
      && (r.Ok? ==> OnlyPublished(t.(grants := t.grants[g := t.grants[g].(revokedAt := Some(t.now))]), r.value, g))
      && (r.Err? ==> RevokeRefusedAs(t, g, reason, r.error))
  {
    SaysExactlyWhen(reason);
    if Unrevoked(t, g) {
      if t.grants[g].scope == OrganizationControl {
        LastExactlyWhen(t, g);
      }
      PublishOnly(t.(grants := t.grants[g := t.grants[g].(revokedAt := Some(t.now))]), g);
    }
  }

  // ----- asking for an activation

  ghost predicate MayRequest(t: Tables, holder: Id, g: nat, duration: int, reason: string) {
    && 1_000_000_000 <= duration <= t.max && Says(reason)
    && Unrevoked(t, g) && t.grants[g].principal == holder && t.grants[g].kind == Eligible
    && !SomeRunning(t, g) && !SomeWaiting(t, g)
  }

  ghost predicate RequestRefusedAs(t: Tables, holder: Id, g: nat, duration: int, reason: string, error: Error) {
    if duration < 1_000_000_000 then error == Invalid
    else if duration > t.max then error == TooLong
    else if !Says(reason) then error == Invalid
    else if !Unrevoked(t, g) || t.grants[g].principal != holder then error == NotHolder
    else if t.grants[g].kind == Emergency then error == EmergencyGrant
    else if SomeRunning(t, g) then error == ActivationInForce
    else error == ActivationPending
  }

  /** The activation is of what was asked: the whole seconds of the duration, from when it is approved. */
  ghost predicate IsAsked(a: Activation, t: Tables, holder: Id, g: nat, duration: int, approvalRequired: bool)
    requires g < |t.grants|
  {
    && a.grant == g && a.principal == holder && a.scope == t.grants[g].scope && a.approvalRequired == approvalRequired
    && a.requestedAt == t.now && a.endedAt == None
    && a.seconds * 1_000_000_000 <= duration < (a.seconds + 1) * 1_000_000_000
    && (approvalRequired ==> a.decision == None && a.decidedBy == None && a.decidedAt == None && a.endsAt == None)
    && (!approvalRequired ==> a.decision == Some(Approved) && a.decidedBy == Some(holder) && a.decidedAt == Some(t.now)
                              && a.endsAt == Some(t.now + a.seconds * 1_000_000_000))
  }

  /** An undecided request of the grant that is a day old is lapsed on the way; every other is left alone. */
  ghost predicate LapsedOnTheWay(a: Activation, a': Activation, g: nat, now: int) {
    a' == if a.grant == g && a.decision == None && a.requestedAt + DAY <= now
          then a.(decision := Some(Lapsed), decidedAt := Some(now)) else a
  }

  ghost predicate Requested(t: Tables, t': Tables, holder: Id, g: nat, duration: int, approvalRequired: bool)
    requires g < |t.grants|
  {
    && |t'.activations| == |t.activations| + 1
    && (forall i :: 0 <= i < |t.activations| ==> LapsedOnTheWay(t.activations[i], t'.activations[i], g, t.now))
    && IsAsked(t'.activations[|t.activations|], t, holder, g, duration, approvalRequired)
    && (if approvalRequired then t' == t.(activations := t'.activations)
        else OnlyPublished(t.(activations := t'.activations), t', g))
  }

  lemma PendingExactlyWhen(t: Tables, g: nat)
    ensures AnyPending(Lapse(t.activations, g, t.now), g) <==> SomeWaiting(t, g)
    ensures AnyInForce(t, g) <==> SomeRunning(t, g)
  {
    var lapsed := Lapse(t.activations, g, t.now);
    assert forall i :: 0 <= i < |t.activations| ==> LapsedOnTheWay(t.activations[i], lapsed[i], g, t.now);
    if AnyPending(lapsed, g) {
      var i :| 0 <= i < |lapsed| && lapsed[i].grant == g && lapsed[i].decision.None?;
      assert Waiting(t.activations[i], t.now);
    }
    if SomeWaiting(t, g) {
      var i :| 0 <= i < |t.activations| && t.activations[i].grant == g && Waiting(t.activations[i], t.now);
      assert lapsed[i].decision.None?;
    }
    if AnyInForce(t, g) {
      var i :| 0 <= i < |t.activations| && t.activations[i].grant == g && InForce(t.activations[i], t.now);
      assert Running(t.activations[i], t.now);
    }
    if SomeRunning(t, g) {
      var i :| 0 <= i < |t.activations| && t.activations[i].grant == g && Running(t.activations[i], t.now);
      assert InForce(t.activations[i], t.now);
    }
  }

  lemma RequestExactlyWhen(t: Tables, holder: Id, g: nat, duration: int, reason: string, approvalRequired: bool)
    ensures
      var r := RequestTx(t, holder, g, duration, reason, approvalRequired);
      && (r.Ok? <==> MayRequest(t, holder, g, duration, reason))
      && (r.Ok? ==> Requested(t, r.value, holder, g, duration, approvalRequired))
      && (r.Err? ==> RequestRefusedAs(t, holder, g, duration, reason, r.error))
  {
    SaysExactlyWhen(reason);
    PendingExactlyWhen(t, g);
    if MayRequest(t, holder, g, duration, reason) {
      RequestLeaves(t, holder, g, duration, reason, approvalRequired);
    }
  }

  lemma RequestLeaves(t: Tables, holder: Id, g: nat, duration: int, reason: string, approvalRequired: bool)
    requires RequestTx(t, holder, g, duration, reason, approvalRequired).Ok? && g < |t.grants|
    ensures Requested(t, RequestTx(t, holder, g, duration, reason, approvalRequired).value, holder, g, duration, approvalRequired)
  {
    var a := Activation(g, holder, t.grants[g].scope, duration / SECOND, approvalRequired, t.now, None, None, None, None, None);
    var lapsed := Lapse(t.activations, g, t.now);
    if !approvalRequired {
      PublishOnly(t.(activations := lapsed + [Settle(a, holder, true, t.now)]), g);
    }
  }

  // ----- deciding and ending

  ghost predicate MayDecide(t: Tables, decider: Id, i: nat, reason: string, serviceNow: int) {
    && Says(reason) && i < |t.activations| && HoldsScope(t, decider, t.activations[i].scope)
    && t.activations[i].principal != decider && t.activations[i].decision == None
    && serviceNow <= t.activations[i].requestedAt + DAY
  }

  ghost predicate DecideRefusedAs(t: Tables, decider: Id, i: nat, reason: string, error: Error) {
    if !Says(reason) then error == Invalid
    else if i >= |t.activations| then error == ActivationNotFound
    else if !HoldsScope(t, decider, t.activations[i].scope) then error == NotHolder
    else if t.activations[i].principal == decider then error == SelfApproval
    else error == Decided
  }

  /** The request is decided now, by the decider; approved, it runs for its seconds from now. */
  ghost predicate DecidedNow(a: Activation, a': Activation, decider: Id, approve: bool, now: int) {
    a' == a.(decidedBy := Some(decider), decision := Some(if approve then Approved else Denied), decidedAt := Some(now),
             endsAt := if approve then Some(now + a.seconds * 1_000_000_000) else None)
  }

  lemma DecideExactlyWhen(t: Tables, decider: Id, i: nat, approve: bool, reason: string, serviceNow: int)
    requires forall k :: 0 <= k < |t.activations| ==> t.activations[k].grant < |t.grants|
    ensures
      var r := DecideTx(t, decider, i, approve, reason, serviceNow);
      && (r.Ok? <==> MayDecide(t, decider, i, reason, serviceNow))
      && (r.Ok? ==>
            && |r.value.activations| == |t.activations| && DecidedNow(t.activations[i], r.value.activations[i], decider, approve, t.now)
            && r.value.activations == t.activations[i := r.value.activations[i]]
            && (if approve then OnlyPublished(t.(activations := r.value.activations), r.value, t.activations[i].grant)
                else r.value == t.(activations := r.value.activations)))
      && (r.Err? ==> DecideRefusedAs(t, decider, i, reason, r.error))
  {
    SaysExactlyWhen(reason);
    if i < |t.activations| {
      HolderExactlyWhen(t, decider, t.activations[i].scope);
      PublishOnly(t.(activations := t.activations[i := Settle(t.activations[i], decider, approve, t.now)]), t.activations[i].grant);
    }
  }

  ghost predicate MayEnd(t: Tables, caller: Id, i: nat, providerInForce: bool, reason: string) {
    && Says(reason) && i < |t.activations| && (t.activations[i].principal == caller || providerInForce)
    && Running(t.activations[i], t.now)
  }

  ghost predicate EndRefusedAs(t: Tables, caller: Id, i: nat, providerInForce: bool, reason: string, error: Error) {
    if !Says(reason) then error == Invalid
    else if i >= |t.activations| then error == ActivationNotFound
    else if t.activations[i].principal != caller && !providerInForce then error == NotHolder
    else error == NotInForce
  }

  lemma EndExactlyWhen(t: Tables, caller: Id, i: nat, providerInForce: bool, reason: string)
    requires forall k :: 0 <= k < |t.activations| ==> t.activations[k].grant < |t.grants|
    ensures
      var r := EndTx(t, caller, i, providerInForce, reason);
      && (r.Ok? <==> MayEnd(t, caller, i, providerInForce, reason))
      && (r.Ok? ==>
            OnlyPublished(t.(activations := t.activations[i := t.activations[i].(endedAt := Some(t.now))]), r.value, t.activations[i].grant))
      && (r.Err? ==> EndRefusedAs(t, caller, i, providerInForce, reason, r.error))
  {
    SaysExactlyWhen(reason);
    if i < |t.activations| {
      PublishOnly(t.(activations := t.activations[i := t.activations[i].(endedAt := Some(t.now))]), t.activations[i].grant);
    }
  }

  // ----- the bump

  /** A published grant that confers nothing now: revoked, or eligible with nothing running. */
  ghost predicate Silent(t: Tables, g: nat) {
    && g < |t.grants| && t.grants[g].scope == IdentityControl
    && (t.grants[g].revokedAt != None || (t.grants[g].kind == Eligible && !SomeRunning(t, g)))
  }

  /** The state that withdraws the grant, at the version it holds. */
  ghost predicate Withdraws(t: Tables, e: Record<GrantState>) {
    Silent(t, e.key) && e.version == t.grants[e.key].version
    && e.body == GrantState(t.grants[e.key].principal, IdentityControl, t.grants[e.key].kind, t.grants[e.key].revokedAt != None, None)
  }

  /** Each of the silent grants below n once, in order, and no other. */
  ghost predicate WithdrawsEach(t: Tables, events: seq<Record<GrantState>>, n: nat) {
    && (forall i :: 0 <= i < |events| ==> Withdraws(t, events[i]) && events[i].key < n)
    && (forall i, j :: 0 <= i < j < |events| ==> events[i].key < events[j].key)
    && (forall g: nat :: g < n && Silent(t, g) ==> exists i :: 0 <= i < |events| && events[i].key == g)
  }

  lemma WithdrawnExactlyWhen(t: Tables, g: nat)
    requires g < |t.grants|
    ensures Withdrawn(t, g) <==> Silent(t, g)
    ensures Silent(t, g) ==> Withdraws(t, Record(g, t.grants[g].version, StateOf(t, g)))
  {
    PendingExactlyWhen(t, g);
    TopIsInForce(t.activations, g, t.now);
  }

  lemma {:induction false} WithdrawnSent(t: Tables, n: nat) returns (sent: seq<Record<GrantState>>)
    requires n <= |t.grants|
    ensures PublishWithdrawn(t, n).events == t.events + sent && WithdrawsEach(t, sent, n)
  {
    sent := [];
    if n > 0 {
      var before := WithdrawnSent(t, n - 1);
      sent := before;
      WithdrawnExactlyWhen(t, n - 1);
      if Withdrawn(t, n - 1) {
        var e := Record(n - 1, t.grants[n - 1].version, StateOf(t, n - 1));
        assert StateOf(PublishWithdrawn(t, n - 1), n - 1) == StateOf(t, n - 1);
        sent := before + [e];
        assert sent[|before|].key == n - 1;
        forall g: nat | g < n && Silent(t, g) ensures exists i :: 0 <= i < |sent| && sent[i].key == g {
          if g < n - 1 {
            var i :| 0 <= i < |before| && before[i].key == g;
            assert sent[i].key == g;
          }
        }
      }
    }
  }

  /** The bump: every version up by the margin, and exactly the silent grants withdrawn, each once. */
  lemma BumpExactly(t: Tables) returns (sent: seq<Record<GrantState>>)
    ensures
      var t' := BumpTx(t);
      && t'.now == t.now && t'.max == t.max && t'.activations == t.activations && |t'.grants| == |t.grants|
      && (forall g :: 0 <= g < |t.grants| ==> t'.grants[g] == t.grants[g].(version := t.grants[g].version + 1_000_000_000))
      && t'.events == t.events + sent && WithdrawsEach(t', sent, |t.grants|)
  {
    var mid := t.(grants := Bumped(t.grants));
    sent := WithdrawnSent(mid, |mid.grants|);
    var t' := BumpTx(t);
    assert forall g: nat :: Silent(mid, g) <==> Silent(t', g);
  }

  // ----- how long, over runs

  /** What of an activation never changes. */
  ghost predicate SameAsked(a: Activation, b: Activation) {
    && a.grant == b.grant && a.principal == b.principal && a.scope == b.scope && a.seconds == b.seconds
    && a.approvalRequired == b.approvalRequired && a.requestedAt == b.requestedAt
  }

  /** A step changes nothing that was asked, and only a request adds an activation, of what it asked. */
  lemma StepAsks(t: Tables, s: Step)
    requires Inv(t)
    ensures
      var t' := Take(t, s);
      && |t.activations| <= |t'.activations| <= |t.activations| + 1
      && (forall i :: 0 <= i < |t.activations| ==> SameAsked(t.activations[i], t'.activations[i]))
      && (|t'.activations| > |t.activations| ==>
            s.Request? && s.g < |t.grants| && IsAsked(t'.activations[|t.activations|], t, s.holder, s.g, s.duration, s.approvalRequired))
  {
    if s.Request? {
      RequestExactlyWhen(t, s.holder, s.g, s.duration, s.reason, s.approvalRequired);
    }
  }

  /** The request that made the i-th activation. */
  lemma {:induction false} AskedBy(start: int, max: int, steps: seq<Step>, i: nat) returns (k: nat)
    requires i < |Exec(Init(start, max), steps).activations|
    ensures k < |steps| && steps[k].Request?
    ensures
      var a := Exec(Init(start, max), steps).activations[i];
      var before := Exec(Init(start, max), steps[..k]);
      && |before.activations| == i && steps[k].g < |before.grants|
      && a.grant == steps[k].g && a.principal == steps[k].holder && a.requestedAt == before.now
      && a.seconds * 1_000_000_000 <= steps[k].duration < (a.seconds + 1) * 1_000_000_000
  {
    if steps == [] {
      assert false;
    } else {
      var n := |steps| - 1;
      var before := Exec(Init(start, max), steps[..n]);
      RunKeeps(start, max, steps[..n]);
      StepAsks(before, steps[n]);
      if i < |before.activations| {
        k := AskedBy(start, max, steps[..n], i);
        assert steps[..n][..k] == steps[..k] && steps[..n][k] == steps[k];
      } else {
        k := n;
      }
    }
  }

  /**
   An approved activation that nobody ended is in force from its decision for exactly the whole seconds
   of the duration its own request asked for; one that was ended, denied, lapsed or never decided, at no
   instant from now on.
   */
  lemma InForceForWhatWasAsked(start: int, max: int, steps: seq<Step>, i: nat, at: int) returns (k: nat)
    requires i < |Exec(Init(start, max), steps).activations|
    ensures k < |steps| && steps[k].Request? && |Exec(Init(start, max), steps[..k]).activations| == i
    ensures
      var a := Exec(Init(start, max), steps).activations[i];
      && a.grant == steps[k].g && a.principal == steps[k].holder
      && a.seconds * 1_000_000_000 <= steps[k].duration < (a.seconds + 1) * 1_000_000_000
      && (a.decision == Some(Approved) ==> a.decidedAt.Some?)
      && (InForce(a, at) <==>
            a.decision == Some(Approved) && a.endedAt == None && at < a.decidedAt.value + a.seconds * 1_000_000_000)
  {
    k := AskedBy(start, max, steps, i);
    RunKeeps(start, max, steps);
    var t := Exec(Init(start, max), steps);
    Unfold(t);
    assert ActivationOk(t, t.activations[i]);
  }
}
