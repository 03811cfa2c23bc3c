/** Every transaction on provider authority keeps the invariant. */
module AuthoritySteps {
  import opened Base
  import opened Projection
  import opened Authority
  import opened AuthorityInvariant

  /** Activations are judged against the grants they name, which only ever gain a revocation. */
  lemma ActivationsKept(t: Tables, t': Tables)
    requires ActivationsOk(t) && t'.activations == t.activations && t'.max == t.max && t.now <= t'.now
    requires |t.grants| <= |t'.grants|
    requires forall g :: 0 <= g < |t.grants| ==>
               && t'.grants[g].principal == t.grants[g].principal && t'.grants[g].scope == t.grants[g].scope
               && t'.grants[g].kind == t.grants[g].kind && t'.grants[g].grantedAt == t.grants[g].grantedAt
               && (t'.grants[g].revokedAt == t.grants[g].revokedAt
                   || (t.grants[g].revokedAt.None? && t'.grants[g].revokedAt.Some? && t.now <= t'.grants[g].revokedAt.value))
    ensures ActivationsOk(t')
  {
    forall i | 0 <= i < |t'.activations| ensures ActivationOk(t', t'.activations[i]) {
      assert ActivationOk(t, t.activations[i]);
      HeldKept(t, t', t.activations[i]);
    }
  }

  // ----- time passes

  lemma TickKeeps(t: Tables, elapsed: nat, t': Tables)
    requires Inv(t) && t' == t.(now := t.now + elapsed)
    ensures Inv(t')
  {
    Unfold(t);
    ActivationsKept(t, t');
    OneOpenLater(t.activations, t.now, t'.now);
    forall g | 0 <= g < |t'.grants| ensures PublishedOk(t', g) {
      assert PublishedOk(t, g);
      if t.grants[g].scope == IdentityControl {
        AgreesLater(t, t', g, Latest(t.events, g).value.body);
      }
    }
    Fold(t');
  }

  lemma OneOpenLater(activations: seq<Activation>, now: int, later: int)
    requires OneOpen(activations, now) && now <= later
    ensures OneOpen(activations, later)
  {
    forall i, j | 0 <= i < j < |activations| && activations[i].grant == activations[j].grant
      ensures !(Open(activations[i], later) && Open(activations[j], later))
    {
      assert !(Open(activations[i], now) && Open(activations[j], now));
    }
  }

  lemma AgreesLater(t: Tables, t': Tables, g: nat, s: GrantState)
    requires g < |t.grants| && Agrees(t, g, s) && t' == t.(now := t'.now) && t.now <= t'.now
    ensures Agrees(t', g, s)
  {
    forall i | Active(t.grants[g]) && 0 <= i < |t'.activations| && t'.activations[i].grant == g
      ensures InForce(t'.activations[i], t'.now) <==>
                s.activation.Some? && s.activation.value.activation == i && t'.now < s.activation.value.endsAt
    {
      assert InForce(t.activations[i], t.now) <==>
               s.activation.Some? && s.activation.value.activation == i && t.now < s.activation.value.endsAt;
    }
  }

  // ----- grants

  lemma BootstrapKeeps(t: Tables, principal: Id, operator: string, reason: string, t': Tables)
    requires Inv(t) && BootstrapTx(t, principal, operator, reason).Ok?
    requires t' == BootstrapTx(t, principal, operator, reason).value.0
    ensures Inv(t')
  {
    if t.grants == [] {
      Unfold(t);
      assert Governs(t'.grants, 0);
      ActivationsKept(t, t');
      assert PublishedOk(t', 0);
      Fold(t');
    }
  }

  lemma GrantKeeps(t: Tables, caller: Id, principal: Id, scope: Scope, kind: Kind, reason: string, t': Tables)
    requires Inv(t) && GrantTx(t, caller, principal, scope, kind, reason) == Ok(t')
    ensures Inv(t')
  {
    Unfold(t);
    var n := |t.grants|;
    var mid := t.(grants := t.grants + [Grant(principal, scope, kind, Some(caller), t.now, None, 0)]);
    var k :| Governs(t.grants, k);
    assert Governs(mid.grants, k);
    ActivationsKept(t, mid);
    forall g | 0 <= g < |mid.grants| && g != n ensures PublishedOk(mid, g) {
      assert PublishedOk(t, g);
      if t.grants[g].scope == IdentityControl {
        AgreesSame(t, mid, g, Latest(t.events, g).value.body);
      }
    }
    PublishKeeps(mid, n);
  }

  /** Revoking any grant but the last that governs leaves one that does. */
  lemma {:induction false} AnotherGoverns(grants: seq<Grant>, g: nat)
    requires g < |grants| && Governs(grants, g) && CountGoverning(grants) != 1
    ensures exists k :: k != g && Governs(grants, k)
  {
    var n := |grants| - 1;
    var rest := grants[..n];
    if g == n {
      SomeGoverns(rest);
      var k :| Governs(rest, k);
      assert Governs(grants, k);
    } else if Governs(grants, n) {
      assert n != g;
    } else {
      assert Governs(rest, g);
      AnotherGoverns(rest, g);
      var k :| k != g && Governs(rest, k);
      assert Governs(grants, k);
    }
  }

  lemma {:induction false} SomeGoverns(grants: seq<Grant>)
    requires CountGoverning(grants) > 0
    ensures exists k :: Governs(grants, k)
  {
    var n := |grants| - 1;
    if Governs(grants, n) {
    } else {
      SomeGoverns(grants[..n]);
      var k :| Governs(grants[..n], k);
      assert Governs(grants, k);
    }
  }

  lemma RevokeKeeps(t: Tables, g: nat, reason: string, t': Tables)
    requires Inv(t) && RevokeTx(t, g, reason) == Ok(t')
    ensures Inv(t')
  {
    Unfold(t);
    var mid := t.(grants := t.grants[g := t.grants[g].(revokedAt := Some(t.now))]);
    var k :| Governs(t.grants, k);
    if t.grants[g].scope == OrganizationControl {
      AnotherGoverns(t.grants, g);
      k :| k != g && Governs(t.grants, k);
    }
    assert Governs(mid.grants, k);
    ActivationsKept(t, mid);
    forall i | 0 <= i < |mid.grants| && i != g ensures PublishedOk(mid, i) {
      assert PublishedOk(t, i);
      if t.grants[i].scope == IdentityControl {
        AgreesSame(t, mid, i, Latest(t.events, i).value.body);
      }
    }
    PublishKeeps(mid, g);
  }

  // ----- activations

  /** A copy agrees still when activations change without touching what is in force. */
  lemma AgreesQuiet(t: Tables, t': Tables, g: nat, s: GrantState)
    requires g < |t.grants| && Agrees(t, g, s)
    requires t'.grants == t.grants && t'.now == t.now && |t.activations| <= |t'.activations|
    requires forall i :: 0 <= i < |t.activations| ==> QuietlySame(t.activations[i], t'.activations[i], g)
    requires forall i :: |t.activations| <= i < |t'.activations| ==>
               t'.activations[i].grant != g || t'.activations[i].decision.None?
    ensures Agrees(t', g, s)
  {
    if s.activation.Some? {
      assert QuietlySame(t.activations[s.activation.value.activation], t'.activations[s.activation.value.activation], g);
    }
    forall i | Active(t.grants[g]) && 0 <= i < |t'.activations| && t'.activations[i].grant == g
      ensures InForce(t'.activations[i], t'.now) <==>
                s.activation.Some? && s.activation.value.activation == i && t'.now < s.activation.value.endsAt
    {
      if i < |t.activations| {
        assert QuietlySame(t.activations[i], t'.activations[i], g);
      }
    }
  }

  ghost predicate QuietlySame(a: Activation, b: Activation, g: nat) {
    && a.grant == b.grant
    && (a.grant == g ==> a == b || (a.endsAt.None? && b.endsAt.None? && a.decision != Some(Approved) && b.decision != Some(Approved)))
  }

  ghost predicate LapsedNow(a: Activation, b: Activation, g: nat) {
    a.decision.None? && b.decision == Some(Lapsed) && b.endsAt == a.endsAt && a.grant == b.grant == g
  }

  /** After a lapse and a new request the grant has one open activation: the new one. */
  lemma RequestActivations(t: Tables, holder: Id, g: nat, duration: int, reason: string, approvalRequired: bool, t': Tables, mid: Tables)
    requires Inv(t) && RequestTx(t, holder, g, duration, reason, approvalRequired) == Ok(t')
    requires
      var a := Activation(g, holder, t.grants[g].scope, duration / SECOND, approvalRequired, t.now, None, None, None, None, None);
      mid == t.(activations := Lapse(t.activations, g, t.now) + [if approvalRequired then a else Settle(a, holder, true, t.now)])
    ensures ActivationsOk(mid) && OneOpen(mid.activations, mid.now)
    ensures forall i :: 0 <= i < |t.activations| ==>
              (mid.activations[i] == t.activations[i] || LapsedNow(t.activations[i], mid.activations[i], g))
  {
    Unfold(t);
    var lapsed := Lapse(t.activations, g, t.now);
    var n := |t.activations|;
    forall i | 0 <= i < |mid.activations| ensures ActivationOk(mid, mid.activations[i]) {
      if i < n {
        assert ActivationOk(t, t.activations[i]);
        assert mid.activations[i] == lapsed[i];
      }
    }
    forall i | 0 <= i < n && mid.activations[i].grant == g ensures !Open(mid.activations[i], t.now) {
      assert mid.activations[i] == lapsed[i];
    }
    forall i, j | 0 <= i < j < n && mid.activations[i].grant == mid.activations[j].grant
      ensures !(Open(mid.activations[i], t.now) && Open(mid.activations[j], t.now))
    {
      assert mid.activations[i] == lapsed[i] && mid.activations[j] == lapsed[j];
      assert !(Open(t.activations[i], t.now) && Open(t.activations[j], t.now));
    }
  }

  lemma RequestKeeps(t: Tables, holder: Id, g: nat, duration: int, reason: string, approvalRequired: bool, t': Tables)
    requires Inv(t) && RequestTx(t, holder, g, duration, reason, approvalRequired) == Ok(t')
    ensures Inv(t')
  {
    var a := Activation(g, holder, t.grants[g].scope, duration / SECOND, approvalRequired, t.now, None, None, None, None, None);
    var mid := t.(activations := Lapse(t.activations, g, t.now) + [if approvalRequired then a else Settle(a, holder, true, t.now)]);
    RequestActivations(t, holder, g, duration, reason, approvalRequired, t', mid);
    Unfold(t);
    forall k | 0 <= k < |mid.grants| && (approvalRequired || k != g) ensures PublishedOk(mid, k) {
      assert PublishedOk(t, k);
      if t.grants[k].scope == IdentityControl {
        forall i | 0 <= i < |t.activations| ensures QuietlySame(t.activations[i], mid.activations[i], k) {
          assert ActivationOk(t, t.activations[i]);
        }
        AgreesQuiet(t, mid, k, Latest(t.events, k).value.body);
      }
    }
    if approvalRequired {
      Fold(mid);
    } else {
      PublishKeeps(mid, g);
    }
  }

  /** One activation is decided or ended. */
  lemma OneActivation(t: Tables, i: nat, a: Activation, mid: Tables)
    requires Inv(t) && i < |t.activations| && mid == t.(activations := t.activations[i := a])
    requires a.grant == t.activations[i].grant && ActivationOk(mid, a)
    requires Open(a, t.now) ==> Open(t.activations[i], t.now)
    ensures ActivationsOk(mid) && OneOpen(mid.activations, mid.now)
    ensures forall k :: 0 <= k < |mid.grants| && k != a.grant ==> PublishedOk(mid, k)
  {
    Unfold(t);
    forall j | 0 <= j < |mid.activations| ensures ActivationOk(mid, mid.activations[j]) {
      if j != i {
        assert ActivationOk(t, t.activations[j]);
      }
    }
    forall j, k | 0 <= j < k < |mid.activations| && mid.activations[j].grant == mid.activations[k].grant
      ensures !(Open(mid.activations[j], mid.now) && Open(mid.activations[k], mid.now))
    {
      assert !(Open(t.activations[j], t.now) && Open(t.activations[k], t.now));
    }
    forall k | 0 <= k < |mid.grants| && k != a.grant ensures PublishedOk(mid, k) {
      assert PublishedOk(t, k);
      if t.grants[k].scope == IdentityControl {
        forall j | 0 <= j < |t.activations| ensures QuietlySame(t.activations[j], mid.activations[j], k) {
        }
        AgreesQuiet(t, mid, k, Latest(t.events, k).value.body);
      }
    }
  }

  lemma DecideKeeps(t: Tables, decider: Id, i: nat, approve: bool, reason: string, serviceNow: int, t': Tables)
    requires Inv(t) && DecideTx(t, decider, i, approve, reason, serviceNow) == Ok(t')
    ensures Inv(t')
  {
    Unfold(t);
    var a := t.activations[i];
    assert ActivationOk(t, a);
    var b := Settle(a, decider, approve, t.now);
    var mid := t.(activations := t.activations[i := b]);
    assert HeldAt(t.grants, decider, a.scope, t.now) by {
      var h :| 0 <= h < |t.grants| && t.grants[h].principal == decider && t.grants[h].scope == a.scope && Active(t.grants[h]);
    }
    OneActivation(t, i, b, mid);
    if approve {
      PublishKeeps(mid, a.grant);
    } else {
      assert PublishedOk(t, a.grant);
      if t.grants[a.grant].scope == IdentityControl {
        forall j | 0 <= j < |t.activations| ensures QuietlySame(t.activations[j], mid.activations[j], a.grant) {
        }
        AgreesQuiet(t, mid, a.grant, Latest(t.events, a.grant).value.body);
      }
      Fold(mid);
    }
  }

  lemma EndKeeps(t: Tables, caller: Id, i: nat, providerInForce: bool, reason: string, t': Tables)
    requires Inv(t) && EndTx(t, caller, i, providerInForce, reason) == Ok(t')
    ensures Inv(t')
  {
    Unfold(t);
    var a := t.activations[i];
    assert ActivationOk(t, a);
    var b := a.(endedAt := Some(t.now));
    var mid := t.(activations := t.activations[i := b]);
    OneActivation(t, i, b, mid);
    PublishKeeps(mid, a.grant);
  }

  // ----- a restore's bump

  /** After the withdrawn grants below n are published, events are in order and every copy agrees. */
  lemma {:induction false} WithdrawnKeeps(t: Tables, n: nat, low: seq<int>)
    requires n <= |t.grants| && |low| == |t.grants| && OneOpen(t.activations, t.now)
    requires EventsOk(t.grants, t.events)
    requires forall g :: 0 <= g < |t.grants| ==> low[g] < t.grants[g].version
    requires forall e :: e in t.events ==> e.version <= low[e.key]
    requires forall g :: 0 <= g < |t.grants| ==> PublishedOk(t, g)
    ensures
      var t' := PublishWithdrawn(t, n);
      && EventsOk(t'.grants, t'.events)
      && (forall e :: e in t'.events && e.key >= n ==> e.version <= low[e.key])
      && (forall g :: 0 <= g < |t'.grants| ==> PublishedOk(t', g))
  {
    if n > 0 {
      WithdrawnKeeps(t, n - 1, low);
      var before := PublishWithdrawn(t, n - 1);
      if Withdrawn(t, n - 1) {
        var e := Record(n - 1, t.grants[n - 1].version, StateOf(before, n - 1));
        AppendKeeps(before.grants, before.events, e);
        StateAgrees(before, n - 1);
        var t' := PublishWithdrawn(t, n);
        assert t'.events == before.events + [e];
        forall g | 0 <= g < |t'.grants| ensures PublishedOk(t', g) {
          LatestOfAppend(before.events, e, g);
          assert PublishedOk(before, g);
          if t.grants[g].scope == IdentityControl {
            AgreesSame(before, t', g, Latest(t'.events, g).value.body);
          }
        }
      }
    }
  }

  lemma BumpKeeps(t: Tables, t': Tables)
    requires Inv(t) && t' == BumpTx(t)
    ensures Inv(t')
  {
    Unfold(t);
    var mid := t.(grants := Bumped(t.grants));
    if t.grants != [] {
      var k :| Governs(t.grants, k);
      assert Governs(mid.grants, k);
    }
    ActivationsKept(t, mid);
    forall g | 0 <= g < |mid.grants| ensures PublishedOk(mid, g) {
      assert PublishedOk(t, g);
      if t.grants[g].scope == IdentityControl {
        AgreesSame(t, mid, g, Latest(t.events, g).value.body);
      }
    }
    var low := seq(|t.grants|, g requires 0 <= g < |t.grants| => t.grants[g].version);
    WithdrawnKeeps(mid, |mid.grants|, low);
    ActivationsKept(mid, t');
    Fold(t');
  }

  // ----- every run

  lemma StepKeeps(t: Tables, s: Step)
    requires Inv(t)
    ensures Inv(Take(t, s))
  {
    var t' := Take(t, s);
    if t' != t {
      match s {
        case Tick(elapsed) => TickKeeps(t, elapsed, t');
        case Bootstrap(principal, operator, reason) => BootstrapKeeps(t, principal, operator, reason, t');
        case GrantStep(caller, principal, scope, kind, reason) => GrantKeeps(t, caller, principal, scope, kind, reason, t');
        case Revoke(g, reason) => RevokeKeeps(t, g, reason, t');
        case Request(holder, g, duration, reason, approvalRequired) =>
          RequestKeeps(t, holder, g, duration, reason, approvalRequired, t');
        case Decide(decider, i, approve, reason, serviceNow) => DecideKeeps(t, decider, i, approve, reason, serviceNow, t');
        case End(caller, i, providerInForce, reason) => EndKeeps(t, caller, i, providerInForce, reason, t');
        case Bump => BumpKeeps(t, t');
      }
    }
  }

  lemma {:induction false} RunKeeps(now: int, max: int, steps: seq<Step>)
    ensures Inv(Exec(Init(now, max), steps))
  {
    if steps == [] {
      Fold(Init(now, max));
    } else {
      RunKeeps(now, max, steps[..|steps| - 1]);
      StepKeeps(Exec(Init(now, max), steps[..|steps| - 1]), steps[|steps| - 1]);
    }
  }
}
