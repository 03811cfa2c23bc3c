/** What a maintainer may rely on, over every run on the provider tables. */
module AuthorityResults {
  import opened Base
  import opened Projection
  import opened Authority
  import opened AuthorityInvariant
  import opened AuthoritySteps

  // ----- the published projection

  lemma AgreeingConfers(t: Tables, g: nat, s: GrantState, at: int)
    requires g < |t.grants| && Agrees(t, g, s) && ActivationsOk(t) && t.now <= at
    ensures StateConfers(s, at) <==> TablesConfer(t, g, at)
  {
    if Active(t.grants[g]) && t.grants[g].kind == Eligible {
      if StateConfers(s, at) {
        var i := s.activation.value.activation;
        assert InForce(t.activations[i], t.now);
        assert InForce(t.activations[i], at);
      }
      if TablesConfer(t, g, at) {
        var i :| 0 <= i < |t.activations| && t.activations[i].grant == g && InForce(t.activations[i], at);
        assert InForce(t.activations[i], t.now);
      }
    }
  }

  /**
   A consumer sent every event so far, in any order and with any duplicates, that keeps the highest
   version and reads EndsAt on its own clock, confers each published grant at exactly the instants
   the authoritative tables do, from now on: through requests, denials, lapses and natural ends, none
   of which is announced.
   */
  lemma ConsumerAgreesWithTables(start: int, max: int, steps: seq<Step>, delivered: seq<Record<GrantState>>, g: nat, at: int)
    requires
      var t := Exec(Init(start, max), steps);
      g < |t.grants| && t.grants[g].scope == IdentityControl && t.now <= at
    requires forall e :: e in delivered <==> e in Exec(Init(start, max), steps).events
    ensures
      var t := Exec(Init(start, max), steps);
      var view := DeliverAll(map[], delivered);
      g in view && (StateConfers(view[g].body, at) <==> TablesConfer(t, g, at))
  {
    var t := Exec(Init(start, max), steps);
    RunKeeps(start, max, steps);
    Unfold(t);
    Converges(t.events, delivered, g);
    assert PublishedOk(t, g);
    AgreeingConfers(t, g, Latest(t.events, g).value.body, at);
  }

  /** Only grants of the published scope are ever told to a consumer. */
  lemma OnlyPublishedScope(start: int, max: int, steps: seq<Step>, e: Record<GrantState>)
    requires e in Exec(Init(start, max), steps).events
    ensures
      var t := Exec(Init(start, max), steps);
      e.key < |t.grants| && t.grants[e.key].scope == IdentityControl && e.version <= t.grants[e.key].version
  {
    RunKeeps(start, max, steps);
    Unfold(Exec(Init(start, max), steps));
  }

  // ----- a restore

  /** The events a bump appends, all of grants that confer nothing. */
  lemma {:induction false} BumpAppendsWithdrawn(t: Tables, n: nat)
    requires n <= |t.grants|
    ensures t.events <= PublishWithdrawn(t, n).events
    ensures forall i :: |t.events| <= i < |PublishWithdrawn(t, n).events| ==>
              var e := PublishWithdrawn(t, n).events[i];
              && e.key < n && Withdrawn(t, e.key) && e.version == t.grants[e.key].version
              && e.body == StateOf(t, e.key)
    ensures forall g :: 0 <= g < n && Withdrawn(t, g) ==>
              Record(g, t.grants[g].version, StateOf(t, g)) in PublishWithdrawn(t, n).events[|t.events|..]
  {
    if n > 0 {
      BumpAppendsWithdrawn(t, n - 1);
      var before := PublishWithdrawn(t, n - 1);
      assert StateOf(before, n - 1) == StateOf(t, n - 1);
      var after := PublishWithdrawn(t, n);
      if Withdrawn(t, n - 1) {
        assert after.events[|t.events|..] == before.events[|t.events|..] + [Record(n - 1, t.grants[n - 1].version, StateOf(t, n - 1))];
      }
    }
  }

  lemma WithdrawnStateConfersNothing(t: Tables, g: nat, at: int)
    requires g < |t.grants| && Withdrawn(t, g)
    ensures !StateConfers(StateOf(t, g), at)
  {
    TopIsInForce(t.activations, g, t.now);
  }

  lemma BumpSendsNothingThatConfers(t: Tables, sent: seq<Record<GrantState>>, e: Record<GrantState>, at: int)
    requires BumpTx(t).events == t.events + sent && e in sent
    ensures !StateConfers(e.body, at)
  {
    var mid := t.(grants := Bumped(t.grants));
    BumpAppendsWithdrawn(mid, |mid.grants|);
    var i :| 0 <= i < |sent| && sent[i] == e;
    assert BumpTx(t).events[|t.events| + i] == e;
    WithdrawnStateConfersNothing(mid, e.key, at);
  }

  lemma BumpSendsEveryWithdrawn(t: Tables, sent: seq<Record<GrantState>>, g: nat) returns (e: Record<GrantState>)
    requires BumpTx(t).events == t.events + sent && g < |t.grants| && Withdrawn(t, g)
    ensures e in sent && e.key == g && e.version == t.grants[g].version + MARGIN
  {
    var mid := t.(grants := Bumped(t.grants));
    BumpAppendsWithdrawn(mid, |mid.grants|);
    assert sent == BumpTx(t).events[|t.events|..];
    assert Withdrawn(mid, g);
    e := Record(g, mid.grants[g].version, StateOf(mid, g));
  }

  /**
   After a restore to older tables, against any copy a consumer holds: the bump sends it only states
   that confer nothing, so it never widens access at any instant; and a published grant the tables
   confer nothing by now confers nothing in the copy, if the copy's version is within the margin.
   */
  lemma RestoreNeverWidens(t: Tables, view: map<Id, Record<GrantState>>, sent: seq<Record<GrantState>>,
                           delivered: seq<Record<GrantState>>, g: nat, at: int)
    requires forall k :: k in view ==> view[k].key == k
    requires BumpTx(t).events == t.events + sent
    requires forall e :: e in delivered <==> e in sent
    ensures
      var after := DeliverAll(view, delivered);
      && (g in after && StateConfers(after[g].body, at) ==> g in view && StateConfers(view[g].body, at))
      && (g < |t.grants| && g in view && t.grants[g].scope == IdentityControl && !TablesConfer(t, g, t.now) && view[g].version < t.grants[g].version + MARGIN ==>
            g in after && !StateConfers(after[g].body, at))
  {
    DeliveryKeepsHighest(view, delivered);
    var after := DeliverAll(view, delivered);
    if g in after && after[g] in sent {
      BumpSendsNothingThatConfers(t, sent, after[g], at);
    }
    if g < |t.grants| && g in view && t.grants[g].scope == IdentityControl && !TablesConfer(t, g, t.now) && view[g].version < t.grants[g].version + MARGIN {
      assert Withdrawn(t, g);
      var e := BumpSendsEveryWithdrawn(t, sent, g);
      assert after[g] in sent;
    }
  }

  // ----- activations

  /** In every reachable state a grant has at most one activation pending or in force, in total. */
  lemma AtMostOneOpen(start: int, max: int, steps: seq<Step>, i: nat, j: nat)
    requires
      var t := Exec(Init(start, max), steps);
      && i < |t.activations| && j < |t.activations| && t.activations[i].grant == t.activations[j].grant
      && Open(t.activations[i], t.now) && Open(t.activations[j], t.now)
    ensures i == j
  {
    RunKeeps(start, max, steps);
    Unfold(Exec(Init(start, max), steps));
  }

  /**
   Whoever approved an activation that needed approval is not its holder, and held an unrevoked grant
   of its scope at that instant; and no activation is in force longer than the maximum after it was
   decided.
   */
  lemma ApprovedByAnotherAndBounded(start: int, max: int, steps: seq<Step>, i: nat)
    requires
      var t := Exec(Init(start, max), steps);
      i < |t.activations| && InForce(t.activations[i], t.now)
    ensures
      var t := Exec(Init(start, max), steps);
      var a := t.activations[i];
      && a.decidedBy.Some? && a.decidedAt.Some? && a.decidedAt.value <= t.now < a.decidedAt.value + max
      && (a.approvalRequired ==>
            a.decidedBy.value != a.principal && HeldAt(t.grants, a.decidedBy.value, a.scope, a.decidedAt.value))
  {
    RunKeeps(start, max, steps);
    var t := Exec(Init(start, max), steps);
    Unfold(t);
    assert ActivationOk(t, t.activations[i]);
    MaxKept(Init(start, max), steps);
  }

  lemma {:induction false} MaxKept(t: Tables, steps: seq<Step>)
    ensures Exec(t, steps).max == t.max
  {
    if steps != [] {
      MaxKept(t, steps[..|steps| - 1]);
    }
  }

  // ----- revocation

  ghost predicate GrantRevoked(t: Tables, g: nat) {
    g < |t.grants| && !Active(t.grants[g])
  }

  lemma RevokedStays(t: Tables, s: Step, g: nat)
    requires GrantRevoked(t, g)
    ensures GrantRevoked(Take(t, s), g)
  {
  }

  /**
   Once revoked, a grant never confers authority again at any instant of any continuation: not when a
   request pending on it is approved later, nor when its Principal is granted the scope anew.
   */
  lemma {:induction false} RevokedForGood(t: Tables, more: seq<Step>, g: nat, at: int)
    requires GrantRevoked(t, g)
    ensures GrantRevoked(Exec(t, more), g) && !TablesConfer(Exec(t, more), g, at)
    ensures !StateConfers(StateOf(Exec(t, more), g), at)
  {
    if more != [] {
      RevokedForGood(t, more[..|more| - 1], g, at);
      RevokedStays(Exec(t, more[..|more| - 1]), more[|more| - 1], g);
    }
  }

  // ----- standing

  /** The activation a standing names is the only one it could: the order of the read is irrelevant. */
  lemma StandingNamesOne(start: int, max: int, steps: seq<Step>, principal: Id, i: nat, j: nat)
    requires
      var t := Exec(Init(start, max), steps);
      StandsOn(t, principal, i) && StandsOn(t, principal, j)
    ensures i == j
  {
    RunKeeps(start, max, steps);
    var t := Exec(Init(start, max), steps);
    Unfold(t);
    assert ActivationOk(t, t.activations[i]) && ActivationOk(t, t.activations[j]);
    var g, h := t.activations[i].grant, t.activations[j].grant;
    assert g == h;
    assert Open(t.activations[i], t.now) && Open(t.activations[j], t.now);
  }

  lemma {:induction false} FirstStandingFinds(t: Tables, principal: Id, n: nat)
    ensures FirstStanding(t, principal, n).Some? ==>
              FirstStanding(t, principal, n).value < n && StandsOn(t, principal, FirstStanding(t, principal, n).value)
    ensures FirstStanding(t, principal, n).None? ==> forall i :: 0 <= i < n ==> !StandsOn(t, principal, i)
  {
    if n > 0 {
      FirstStandingFinds(t, principal, n - 1);
    }
  }

  /** A grant of the Principal for this service's own scope confers authority now. */
  ghost predicate AuthorizedBy(t: Tables, principal: Id, g: nat) {
    TablesConfer(t, g, t.now) && t.grants[g].principal == principal && t.grants[g].scope == OrganizationControl
  }

  lemma StandingHasGrant(t: Tables, principal: Id)
    requires ActivationsOk(t)
    ensures
      var standing := ProviderStanding(t, principal);
      standing.emergency || standing.activation.Some? ==> standing.holder && exists g: nat :: AuthorizedBy(t, principal, g)
  {
    FirstStandingFinds(t, principal, |t.activations|);
    var standing := ProviderStanding(t, principal);
    if standing.activation.Some? {
      var i := standing.activation.value;
      assert ActivationOk(t, t.activations[i]);
      assert AuthorizedBy(t, principal, t.activations[i].grant);
    }
    if standing.emergency {
      var g: nat :| 0 <= g < |t.grants| && t.grants[g].principal == principal && Active(t.grants[g])
                    && t.grants[g].scope == OrganizationControl && t.grants[g].kind == Emergency;
      assert AuthorizedBy(t, principal, g);
    }
  }

  lemma GrantGivesStanding(t: Tables, principal: Id, g: nat)
    requires ActivationsOk(t) && AuthorizedBy(t, principal, g)
    ensures
      var standing := ProviderStanding(t, principal);
      standing.emergency || standing.activation.Some?
  {
    FirstStandingFinds(t, principal, |t.activations|);
    if t.grants[g].kind == Eligible {
      var i :| 0 <= i < |t.activations| && t.activations[i].grant == g && InForce(t.activations[i], t.now);
      assert ActivationOk(t, t.activations[i]);
      assert StandsOn(t, principal, i);
    }
  }

  /** In force here means exactly: some grant of the Principal for this service's scope confers authority now. */
  lemma StandingIsAuthority(start: int, max: int, steps: seq<Step>, principal: Id)
    ensures
      var t := Exec(Init(start, max), steps);
      var standing := ProviderStanding(t, principal);
      && ((standing.emergency || standing.activation.Some?) <==> exists g: nat :: AuthorizedBy(t, principal, g))
      && (standing.emergency || standing.activation.Some? ==> standing.holder)
  {
    RunKeeps(start, max, steps);
    var t := Exec(Init(start, max), steps);
    assert ActivationsOk(t) by {
      Unfold(t);
    }
    StandingHasGrant(t, principal);
    if g: nat :| AuthorizedBy(t, principal, g) {
      GrantGivesStanding(t, principal, g);
    }
  }

  // ----- the bootstrap and the last grant

  /** From the first bootstrap on somebody always holds an unrevoked governing grant, and the bootstrap wrote one row. */
  lemma AlwaysGoverned(start: int, max: int, steps: seq<Step>)
    ensures
      var t := Exec(Init(start, max), steps);
      && (t.grants != [] ==> exists g :: Governs(t.grants, g))
      && (forall g :: 0 <= g < |t.grants| && t.grants[g].grantedBy.None? ==> g == 0)
  {
    RunKeeps(start, max, steps);
    Unfold(Exec(Init(start, max), steps));
  }

  /** Reading two rows decides as reading the whole table would, and a rerun it reports names a grant still unrevoked. */
  lemma BootstrapDecides(start: int, max: int, steps: seq<Step>, principal: Id, operator: string, reason: string)
    requires principal != NIL && !Blank(operator) && !Blank(reason)
    ensures
      var t := Exec(Init(start, max), steps);
      var r := BootstrapTx(t, principal, operator, reason);
      && (r.Ok? && r.value.1 <==> |t.grants| == 1 && t.grants[0].grantedBy.None? && t.grants[0].principal == principal)
      && (r.Ok? && !r.value.1 <==> t.grants == [])
      && (r.Err? ==> r.error == GrantsExist)
      && (r.Ok? && r.value.1 ==> r.value.0 == t && Governs(t.grants, 0))
      && (r.Ok? && !r.value.1 ==> |r.value.0.grants| == 1 && Governs(r.value.0.grants, 0) && TablesConfer(r.value.0, 0, t.now))
  {
    RunKeeps(start, max, steps);
    Unfold(Exec(Init(start, max), steps));
  }
}
