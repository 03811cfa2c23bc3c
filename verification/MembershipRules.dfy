/**
 What each Membership command requires and what it leaves, said of rows, versions and statuses alone
 (internal/membership/state.go, service.go).
 */
module MembershipRules {
  import opened Base
  import opened Projection
  import M = Membership

  // ----- what is asked of a caller and of the row

  /** Suspend needs an active Membership, restore a suspended one, revoke any that is not revoked. */
  ghost predicate Permits(action: M.Action, status: M.State) {
    || (action == M.Suspend && status == M.Active)
    || (action == M.Restore && status == M.Suspended)
    || (action == M.Revoke && (status == M.Active || status == M.Suspended))
  }

  /** Suspend leaves suspended, restore active, revoke revoked. */
  ghost predicate Leaves(action: M.Action, status: M.State) {
    && (action == M.Suspend ==> status == M.Suspended)
    && (action == M.Restore ==> status == M.Active)
    && (action == M.Revoke ==> status == M.Revoked)
  }

  /** Two Memberships of one Principal, Tenant, subject type, and workspace or the Tenant as a whole. */
  ghost predicate Twins(a: M.Row, b: M.Row) {
    && a.principal == b.principal && a.tenant == b.tenant && a.subjectType == b.subjectType
    && (if a.workspace == NIL then a.tenant else a.workspace) == (if b.workspace == NIL then b.tenant else b.workspace)
  }

  /** Another Membership of the same slot is active. */
  ghost predicate ActiveTwin(rows: map<Id, M.Row>, m: Id, row: M.Row) {
    exists k :: k in rows && k != m && rows[k].status == M.Active && Twins(rows[k], row)
  }

  ghost predicate Used(s: M.Store, eventId: Id) {
    exists i :: 0 <= i < |s.events| && s.events[i].body.eventId == eventId
  }

  ghost predicate WellAsked(action: M.Action, cmd: M.Command) {
    cmd.membership != NIL && cmd.expected > 0 && (action == M.Revoke ==> Says(cmd.reason))
  }

  ghost predicate There(s: M.Store, tenant: Id, m: Id) {
    m in s.rows && s.rows[m].tenant == tenant
  }

  /** A transition may be made now. */
  ghost predicate May(s: M.Store, tenant: Id, action: M.Action, cmd: M.Command) {
    && WellAsked(action, cmd) && There(s, tenant, cmd.membership)
    && Permits(action, s.rows[cmd.membership].status) && s.rows[cmd.membership].version == cmd.expected
    && !(action == M.Restore && ActiveTwin(s.rows, cmd.membership, s.rows[cmd.membership]))
  }

  /** Each refusal by its own condition, the first that applies. */
  ghost predicate RefusedAs(s: M.Store, tenant: Id, action: M.Action, cmd: M.Command, error: M.Error) {
    if cmd.membership == NIL || cmd.expected <= 0 then error == M.Invalid
    else if action == M.Revoke && !Says(cmd.reason) then error == M.ReasonRequired
    else if !There(s, tenant, cmd.membership) then error == M.NotFound
    else if s.rows[cmd.membership].status == M.Revoked then error == M.RevokedIsTerminal
    else if !Permits(action, s.rows[cmd.membership].status) then error == M.TransitionRefused
    else if s.rows[cmd.membership].version != cmd.expected then error == M.VersionMismatch
    else if action == M.Restore && ActiveTwin(s.rows, cmd.membership, s.rows[cmd.membership]) then error == M.ActiveElsewhere
    else error == M.DatabaseFault
  }

  /** One row moved, to the status the action leaves, one version on, and one event says so. */
  ghost predicate Moved(s: M.Store, s': M.Store, m: Id, action: M.Action, eventId: Id, origin: M.Origin) {
    && m in s.rows && m in s'.rows && s'.rows == s.rows[m := s'.rows[m]]
    && Leaves(action, s'.rows[m].status)
    && s'.rows[m] == s.rows[m].(status := s'.rows[m].status, version := s.rows[m].version + 1)
    && s'.events == s.events + [Record(m, s.rows[m].version + 1, M.Body(eventId, s'.rows[m], action, origin))]
  }

  // ----- the same of the definitions

  lemma UsedExactlyWhen(s: M.Store, eventId: Id)
    ensures Used(s, eventId) <==> M.EventExists(s, eventId)
  {
    if M.EventExists(s, eventId) {
      var e :| e in s.events && e.body.eventId == eventId;
      var i :| 0 <= i < |s.events| && s.events[i] == e;
    }
  }

  lemma TwinExactlyWhen(rows: map<Id, M.Row>, m: Id, row: M.Row)
    ensures M.SlotTaken(rows, m, row) <==> row.status == M.Active && ActiveTwin(rows, m, row)
  {
  }

  lemma ResolvesExactlyWhen(action: M.Action, status: M.State)
    requires action != M.Grant
    ensures M.Resolve(action, status).Ok? <==> Permits(action, status)
    ensures M.Resolve(action, status).Ok? ==> Leaves(action, M.Resolve(action, status).value)
    ensures M.Resolve(action, status).Err? ==>
              M.Resolve(action, status).error == if status == M.Revoked then M.RevokedIsTerminal else M.TransitionRefused
  {
  }

  /** Success, its effect, and every refusal, of one transition. */
  lemma TransitionExactlyWhen(s: M.Store, tenant: Id, action: M.Action, cmd: M.Command, eventId: Id, origin: M.Origin)
    requires action != M.Grant
    ensures
      var r := M.TransitionWithin(s, tenant, action, cmd, eventId, origin);
      && (r.Ok? <==> May(s, tenant, action, cmd) && !Used(s, eventId))
      && (r.Ok? ==> Moved(s, r.value, cmd.membership, action, eventId, origin))
      && (r.Err? ==> RefusedAs(s, tenant, action, cmd, r.error))
  {
    SaysExactlyWhen(cmd.reason);
    UsedExactlyWhen(s, eventId);
    if There(s, tenant, cmd.membership) {
      var row := s.rows[cmd.membership];
      ResolvesExactlyWhen(action, row.status);
      if Permits(action, row.status) {
        TwinExactlyWhen(s.rows, cmd.membership, row.(status := M.Resolve(action, row.status).value, version := row.version + 1));
      }
    }
  }

  // ----- grants

  ghost predicate GrantWellAsked(req: M.GrantRequest, bound: Id) {
    && req.principal != NIL && (req.subjectType == "human" || req.subjectType == "workload") && |req.provenance| > 0
    && req.validFrom != None && (req.validUntil != None ==> req.validUntil.value > req.validFrom.value)
    && (req.tenant == NIL || req.tenant == bound)
  }

  /** The row a grant writes: active, at version 1, of the bound Tenant. */
  ghost predicate GrantedRow(row: M.Row, req: M.GrantRequest, bound: Id) {
    && row.principal == req.principal && row.tenant == bound && row.workspace == req.workspace
    && row.subjectType == req.subjectType && row.status == M.Active && row.version == 1
  }

  lemma GrantExactlyWhen(s: M.Store, tenant: Id, req: M.GrantRequest, m: Id, eventId: Id)
    ensures
      var r := M.GrantWithin(s, tenant, req, m, eventId);
      var row := M.Row(req.principal, tenant, req.workspace, req.subjectType, M.Active, 1);
      && (r.Ok? <==> GrantWellAsked(req, tenant) && m !in s.rows && !ActiveTwin(s.rows, m, row) && !Used(s, eventId))
      && (r.Ok? ==> m in r.value.rows && GrantedRow(r.value.rows[m], req, tenant) && r.value.rows == s.rows[m := r.value.rows[m]]
                    && r.value.events == s.events + [Record(m, 1, M.Body(eventId, r.value.rows[m], M.Grant, M.Direct))])
      && (r.Err? ==> r.error == if !GrantWellAsked(req, tenant) then M.Invalid
                                else if m in s.rows then M.DatabaseFault
                                else if ActiveTwin(s.rows, m, row) then M.ActiveElsewhere else M.DatabaseFault)
  {
    UsedExactlyWhen(s, eventId);
    TwinExactlyWhen(s.rows, m, M.Row(req.principal, tenant, req.workspace, req.subjectType, M.Active, 1));
  }

  // ----- advances

  /** The event type that carries a state: a withdrawal keeps the lane of the transition that made it. */
  ghost predicate Carries(action: M.Action, status: M.State) {
    && (status == M.Suspended ==> action == M.Suspend)
    && (status == M.Revoked ==> action == M.Revoke)
    && (status == M.Active ==> action == M.Restore)
  }

  /** The row at one version past the one named, told by the event type of its state; its status and every other row stay. */
  ghost predicate AdvancedTo(s: M.Store, s': M.Store, m: Id, above: int, eventId: Id)
    requires m in s.rows
  {
    && s'.rows == s.rows[m := s.rows[m].(version := above + 1)] && |s'.events| == |s.events| + 1
    && var e := s'.events[|s.events|];
       && s'.events == s.events + [e] && e.key == m && e.version == above + 1
       && e.body.eventId == eventId && e.body.row == s'.rows[m] && Carries(e.body.action, s.rows[m].status)
  }

  /** A row at or below the version named moves past it; one already past it is left, and another Tenant's is not found. */
  lemma AdvanceExactlyWhen(s: M.Store, tenant: Id, m: Id, above: int, eventId: Id)
    ensures
      var r := M.AdvanceWithin(s, tenant, m, above, eventId);
      if !There(s, tenant, m) then r == Err(M.NotFound)
      else if s.rows[m].version > above then r == Ok(s)
      else if Used(s, eventId) then r == Err(M.DatabaseFault)
      else r.Ok? && AdvancedTo(s, r.value, m, above, eventId)
  {
    UsedExactlyWhen(s, eventId);
  }

  // ----- over histories

  /** After a revocation no history holds the Membership active, or anything but revoked, again. */
  lemma RevokedIsForGood(ops: seq<M.Op>, tenant: Id, cmd: M.Command, eventId: Id, more: seq<M.Op>)
    requires M.Attempt(M.Run(M.EMPTY, ops), M.OpTransition(tenant, M.Revoke, cmd, eventId)).Ok?
    ensures
      var s := M.Apply(M.Run(M.EMPTY, ops), M.OpTransition(tenant, M.Revoke, cmd, eventId));
      cmd.membership in M.Run(s, more).rows && M.Run(s, more).rows[cmd.membership].status == M.Revoked
  {
    var before := M.Run(M.EMPTY, ops);
    var op := M.OpTransition(tenant, M.Revoke, cmd, eventId);
    M.EmptyValid();
    M.RunKeeps(M.EMPTY, ops);
    M.ApplyKeeps(before, op);
    TransitionExactlyWhen(before, tenant, M.Revoke, cmd, eventId, M.Direct);
    M.RunKeeps(M.Apply(before, op), more);
    assert M.Evolves(M.Apply(before, op).rows[cmd.membership], M.Run(M.Apply(before, op), more).rows[cmd.membership]);
  }

  /** A suspension is undone by a restore, unless another active Membership has taken the slot. */
  lemma RestoreUndoesSuspend(s: M.Store, tenant: Id, m: Id, version: int, first: Id, second: Id)
    requires May(s, tenant, M.Suspend, M.Command(m, version, "")) && !Used(s, first) && first != second && !Used(s, second)
    ensures
      var mid := M.TransitionWithin(s, tenant, M.Suspend, M.Command(m, version, ""), first, M.Direct);
      && mid.Ok?
      && var back := M.TransitionWithin(mid.value, tenant, M.Restore, M.Command(m, version + 1, ""), second, M.Direct);
         && (back.Ok? <==> !ActiveTwin(s.rows, m, s.rows[m]))
         && (back.Ok? ==> back.value.rows == s.rows[m := s.rows[m].(version := version + 2)])
  {
    TransitionExactlyWhen(s, tenant, M.Suspend, M.Command(m, version, ""), first, M.Direct);
    var mid := M.TransitionWithin(s, tenant, M.Suspend, M.Command(m, version, ""), first, M.Direct).value;
    TransitionExactlyWhen(mid, tenant, M.Restore, M.Command(m, version + 1, ""), second, M.Direct);
    assert ActiveTwin(mid.rows, m, mid.rows[m]) <==> ActiveTwin(s.rows, m, s.rows[m]) by {
      assert forall k :: k in s.rows && k != m ==> k in mid.rows && mid.rows[k] == s.rows[k];
      assert forall k :: k in mid.rows && k != m ==> k in s.rows;
    }
    forall i | 0 <= i < |mid.events| ensures mid.events[i].body.eventId != second {
      if i < |s.events| {
        assert mid.events[i] == s.events[i];
      }
    }
  }
}
