/** What every run of grants, requests, decisions, ends, revocations and restores keeps. */
module AuthorityInvariant {
  import opened Base
  import opened Projection
  import opened Authority

  // ----- grants

  ghost predicate Sooner(grants: seq<Grant>, now: int) {
    forall g :: 0 <= g < |grants| ==>
      grants[g].grantedAt <= now && (grants[g].revokedAt.Some? ==> grants[g].revokedAt.value <= now)
  }

  /** provider_grant_principal_scope: one unrevoked grant per Principal and scope. */
  ghost predicate OnePerScope(grants: seq<Grant>) {
    forall i, j :: 0 <= i < j < |grants| && Active(grants[i]) && Active(grants[j])
      ==> grants[i].principal != grants[j].principal || grants[i].scope != grants[j].scope
  }

  ghost predicate Governs(grants: seq<Grant>, g: nat) {
    g < |grants| && Active(grants[g]) && grants[g].scope == OrganizationControl
  }

  /** The first row is the bootstrap's and no other is; and somebody can always grant again. */
  ghost predicate Rooted(grants: seq<Grant>) {
    && (forall g :: 0 <= g < |grants| ==> (grants[g].grantedBy.None? <==> g == 0))
    && (grants != [] ==> exists g :: Governs(grants, g))
  }

  // ----- activations

  /** Pending, or conferring authority now. */
  predicate Open(a: Activation, now: int) {
    a.decision.None? || InForce(a, now)
  }

  /** The Principal held an unrevoked grant of the scope at the instant. */
  ghost predicate HeldAt(grants: seq<Grant>, principal: Id, scope: Scope, at: int) {
    exists g :: 0 <= g < |grants| && grants[g].principal == principal && grants[g].scope == scope
                && grants[g].grantedAt <= at && (grants[g].revokedAt.Some? ==> at <= grants[g].revokedAt.value)
  }

  ghost predicate ActivationOk(t: Tables, a: Activation) {
    && a.grant < |t.grants|
    && t.grants[a.grant].principal == a.principal && t.grants[a.grant].scope == a.scope && t.grants[a.grant].kind == Eligible
    && (a.decision.None? ==> a.endsAt.None? && a.endedAt.None? && a.approvalRequired)
    && (a.decision == Some(Approved) <==> a.endsAt.Some?)
    && 1 <= a.seconds && a.seconds * SECOND <= t.max
    && (a.decidedAt.Some? ==> a.decidedAt.value <= t.now)
    && (a.decision == Some(Approved) ==>
          && a.decidedBy.Some? && a.decidedAt.Some?
          && a.endsAt.value == a.decidedAt.value + a.seconds * SECOND
          && (a.approvalRequired ==>
                a.decidedBy.value != a.principal && HeldAt(t.grants, a.decidedBy.value, a.scope, a.decidedAt.value)))
  }

  ghost predicate ActivationsOk(t: Tables) {
    forall i :: 0 <= i < |t.activations| ==> ActivationOk(t, t.activations[i])
  }

  /** A grant has at most one activation that is pending or in force, in total. */
  ghost predicate OneOpen(activations: seq<Activation>, now: int) {
    forall i, j :: 0 <= i < j < |activations| && activations[i].grant == activations[j].grant
      ==> !(Open(activations[i], now) && Open(activations[j], now))
  }

  // ----- publication

  /** The copy names the activation that is in force, and only that one, for as long as it is. */
  ghost predicate Agrees(t: Tables, g: nat, s: GrantState)
    requires g < |t.grants|
  {
    && s.principal == t.grants[g].principal && s.scope == t.grants[g].scope && s.kind == t.grants[g].kind
    && (s.revoked <==> !Active(t.grants[g]))
    && (s.activation.Some? ==>
          && s.activation.value.activation < |t.activations|
          && t.activations[s.activation.value.activation].endsAt == Some(s.activation.value.endsAt)
          && t.activations[s.activation.value.activation].grant == g)
    && (Active(t.grants[g]) ==> forall i :: 0 <= i < |t.activations| && t.activations[i].grant == g ==>
          (InForce(t.activations[i], t.now) <==>
             s.activation.Some? && s.activation.value.activation == i && t.now < s.activation.value.endsAt))
  }

  ghost predicate EventsOk(grants: seq<Grant>, events: seq<Record<GrantState>>) {
    && Increasing(events)
    && forall e :: e in events ==>
         e.key < |grants| && e.version <= grants[e.key].version && grants[e.key].scope == IdentityControl
  }

  ghost predicate PublishedOk(t: Tables, g: nat)
    requires g < |t.grants|
  {
    t.grants[g].scope == IdentityControl ==>
      Latest(t.events, g).Some? && Agrees(t, g, Latest(t.events, g).value.body)
  }

  datatype Part = GrantsPart | ActivationsPart | EventsPart | PublishedPart

  ghost predicate Keeps(t: Tables, part: Part) {
    match part
    case GrantsPart => Sooner(t.grants, t.now) && OnePerScope(t.grants) && Rooted(t.grants)
    case ActivationsPart => ActivationsOk(t) && OneOpen(t.activations, t.now)
    case EventsPart => EventsOk(t.grants, t.events)
    case PublishedPart => forall g :: 0 <= g < |t.grants| ==> PublishedOk(t, g)
  }

  /** The invariant, part by part: a proof that only passes it along unfolds none of them. */
  ghost predicate Inv(t: Tables) {
    forall part: Part :: Keeps(t, part)
  }

  lemma Unfold(t: Tables)
    requires Inv(t)
    ensures Sooner(t.grants, t.now) && OnePerScope(t.grants) && Rooted(t.grants)
    ensures ActivationsOk(t) && OneOpen(t.activations, t.now) && EventsOk(t.grants, t.events)
    ensures forall g :: 0 <= g < |t.grants| ==> PublishedOk(t, g)
  {
    assert Keeps(t, GrantsPart) && Keeps(t, ActivationsPart) && Keeps(t, EventsPart) && Keeps(t, PublishedPart);
  }

  lemma Fold(t: Tables)
    requires Sooner(t.grants, t.now) && OnePerScope(t.grants) && Rooted(t.grants)
    requires ActivationsOk(t) && OneOpen(t.activations, t.now) && EventsOk(t.grants, t.events)
    requires forall g :: 0 <= g < |t.grants| ==> PublishedOk(t, g)
    ensures Inv(t)
  {
    forall part: Part ensures Keeps(t, part) {
      match part
      case _ =>
    }
  }

  // ----- the in-force read

  lemma {:induction false} TopIsInForce(activations: seq<Activation>, g: nat, now: int)
    ensures Top(activations, g, now).Some? ==>
              && Top(activations, g, now).value < |activations|
              && activations[Top(activations, g, now).value].grant == g
              && InForce(activations[Top(activations, g, now).value], now)
    ensures Top(activations, g, now).None? ==>
              forall i :: 0 <= i < |activations| && activations[i].grant == g ==> !InForce(activations[i], now)
  {
    if activations != [] {
      TopIsInForce(activations[..|activations| - 1], g, now);
    }
  }

  /** Since at most one activation of a grant is in force, the order of the read is irrelevant. */
  lemma StateAgrees(t: Tables, g: nat)
    requires g < |t.grants| && OneOpen(t.activations, t.now)
    ensures Agrees(t, g, StateOf(t, g))
  {
    TopIsInForce(t.activations, g, t.now);
    var top := Top(t.activations, g, t.now);
    if top.Some? {
      forall i | 0 <= i < |t.activations| && t.activations[i].grant == g && InForce(t.activations[i], t.now) ensures i == top.value {
        assert Open(t.activations[i], t.now) && Open(t.activations[top.value], t.now);
      }
    }
  }

  // ----- publishing keeps the events in order

  /** Appending an event above every version its grant has published. */
  lemma AppendKeeps(grants: seq<Grant>, events: seq<Record<GrantState>>, e: Record<GrantState>)
    requires EventsOk(grants, events)
    requires e.key < |grants| && e.version <= grants[e.key].version && grants[e.key].scope == IdentityControl
    requires forall x :: x in events && x.key == e.key ==> x.version < e.version
    ensures EventsOk(grants, events + [e])
  {
    forall i | 0 <= i < |events| && events[i].key == e.key ensures events[i].version < e.version {
      assert events[i] in events;
    }
  }

  /**
   The tables before publication, all in order except for what grant g publishes; then g's
   publication restores the invariant.
   */
  lemma PublishKeeps(t: Tables, g: nat)
    requires g < |t.grants|
    requires Sooner(t.grants, t.now) && OnePerScope(t.grants) && Rooted(t.grants)
    requires ActivationsOk(t) && OneOpen(t.activations, t.now) && EventsOk(t.grants, t.events)
    requires forall k :: 0 <= k < |t.grants| && k != g ==> PublishedOk(t, k)
    ensures Inv(Publish(t, g))
  {
    if t.grants[g].scope != IdentityControl {
      assert PublishedOk(t, g);
      Fold(t);
    } else {
      var version := t.grants[g].version + 1;
      var grants := t.grants[g := t.grants[g].(version := version)];
      var mid := t.(grants := grants);
      var e := Record(g, version, StateOf(mid, g));
      var t' := Publish(t, g);
      assert t'.events == t.events + [e] && t'.grants == grants && t'.activations == t.activations && t'.now == t.now && t'.max == t.max;
      GrantsVersion(t, g, version);
      AppendKeeps(grants, t.events, e);
      StateAgrees(mid, g);
      forall k | 0 <= k < |t'.grants| ensures PublishedOk(t', k) {
        LatestOfAppend(t.events, e, k);
        if k == g {
          AgreesSame(mid, t', g, e.body);
        } else if t.grants[k].scope == IdentityControl {
          assert PublishedOk(t, k);
          AgreesSame(t, t', k, Latest(t.events, k).value.body);
        }
      }
      Fold(t');
    }
  }

  lemma AgreesSame(t: Tables, t': Tables, g: nat, s: GrantState)
    requires g < |t.grants| && g < |t'.grants| && Agrees(t, g, s)
    requires t'.grants[g] == t.grants[g].(version := t'.grants[g].version)
    requires t'.activations == t.activations && t'.now == t.now
    ensures Agrees(t', g, s)
  {
  }

  /** A version bump of one grant disturbs nothing else. */
  lemma GrantsVersion(t: Tables, g: nat, version: int)
    requires g < |t.grants| && version >= t.grants[g].version
    requires Sooner(t.grants, t.now) && OnePerScope(t.grants) && Rooted(t.grants) && ActivationsOk(t) && EventsOk(t.grants, t.events)
    ensures
      var t' := t.(grants := t.grants[g := t.grants[g].(version := version)]);
      Sooner(t'.grants, t'.now) && OnePerScope(t'.grants) && Rooted(t'.grants) && ActivationsOk(t') && EventsOk(t'.grants, t'.events)
  {
    var t' := t.(grants := t.grants[g := t.grants[g].(version := version)]);
    if t.grants != [] {
      var k :| Governs(t.grants, k);
      assert Governs(t'.grants, k);
    }
    forall i | 0 <= i < |t'.activations| ensures ActivationOk(t', t'.activations[i]) {
      assert ActivationOk(t, t.activations[i]);
      HeldKept(t, t', t.activations[i]);
    }
  }

  /** Who decided an activation held a grant then, whatever happened to the grant since. */
  lemma HeldKept(t: Tables, t': Tables, a: Activation)
    requires |t.grants| <= |t'.grants|
    requires forall g :: 0 <= g < |t.grants| ==>
               && t'.grants[g].principal == t.grants[g].principal && t'.grants[g].scope == t.grants[g].scope
               && t'.grants[g].grantedAt == t.grants[g].grantedAt
               && (t'.grants[g].revokedAt == t.grants[g].revokedAt
                   || (t.grants[g].revokedAt.None? && t'.grants[g].revokedAt.Some? && t.now <= t'.grants[g].revokedAt.value))
    requires a.decidedAt.Some? ==> a.decidedAt.value <= t.now
    ensures (a.decidedBy.Some? && a.decidedAt.Some? && HeldAt(t.grants, a.decidedBy.value, a.scope, a.decidedAt.value))
            ==> HeldAt(t'.grants, a.decidedBy.value, a.scope, a.decidedAt.value)
  {
    if a.decidedBy.Some? && a.decidedAt.Some? && HeldAt(t.grants, a.decidedBy.value, a.scope, a.decidedAt.value) {
      var g :| 0 <= g < |t.grants| && t.grants[g].principal == a.decidedBy.value && t.grants[g].scope == a.scope
               && t.grants[g].grantedAt <= a.decidedAt.value
               && (t.grants[g].revokedAt.Some? ==> a.decidedAt.value <= t.grants[g].revokedAt.value);
      assert t'.grants[g].principal == a.decidedBy.value;
    }
  }
}
