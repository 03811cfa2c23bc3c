/**
 When each transaction of a batch succeeds and what it leaves, said of rows and clock readings alone
 (internal/membership/batch.go); and that a batch left executing can always be finished.
 */
module BatchRules {
  import opened Base
  import opened Projection
  import opened Batch
  import opened BatchInvariant
  import opened MembershipRules
  import M = Membership

  // ----- preview

  ghost predicate BatchWellAsked(action: M.Action, ids: seq<Id>, reason: string) {
    && (action == M.Suspend || action == M.Restore || action == M.Revoke) && 1 <= |ids| <= 500
    && (action == M.Revoke ==> Says(reason))
    && (forall i :: 0 <= i < |ids| ==> ids[i] != NIL) && (forall i, j :: 0 <= i < j < |ids| ==> ids[i] != ids[j])
  }

  lemma ValidExactlyWhen(action: M.Action, ids: seq<Id>, reason: string)
    ensures ValidateRequest(action, ids, reason).None? <==> BatchWellAsked(action, ids, reason)
  {
    SaysExactlyWhen(reason);
    if NIL in ids {
      var i :| 0 <= i < |ids| && ids[i] == NIL;
    }
  }

  /** Why one item would be refused, as its own command would refuse it. */
  ghost function Why(members: M.Store, tenant: Id, action: M.Action, reason: string, m: Id): Option<M.Error> {
    if !There(members, tenant, m) then Some(M.NotFound)
    else if m == NIL || members.rows[m].version <= 0 then Some(M.Invalid)
    else if action == M.Revoke && !Says(reason) then Some(M.ReasonRequired)
    else if members.rows[m].status == M.Revoked then Some(M.RevokedIsTerminal)
    else if !Permits(action, members.rows[m].status) then Some(M.TransitionRefused)
    else None
  }

  /** What a preview stores of one item: what it read, the status the action would leave, or why not. */
  ghost predicate PreviewedAs(members: M.Store, tenant: Id, action: M.Action, reason: string, m: Id, item: Item) {
    && item.membership == m && item.outcome.None? && item.refusal == Why(members, tenant, action, reason, m)
    && (if There(members, tenant, m) then item.read == Some(Read(members.rows[m].status, members.rows[m].version)) else item.read.None?)
    && (item.resulting.Some? <==> item.refusal.None?)
    && (item.resulting.Some? ==> Leaves(action, item.resulting.value))
  }

  lemma PreviewItemExactlyWhen(members: M.Store, tenant: Id, action: M.Action, reason: string, m: Id, faults: set<M.Error>)
    requires action != M.Grant
    ensures
      var r := PreviewItem(members, tenant, action, reason, m, faults);
      var why := Why(members, tenant, action, reason, m);
      && (r.Err? <==> why.Some? && why.value in faults)
      && (r.Err? ==> r.error == ItemError(why.value))
      && (r.Ok? ==> PreviewedAs(members, tenant, action, reason, m, r.value))
  {
    SaysExactlyWhen(reason);
    if There(members, tenant, m) {
      ResolvesExactlyWhen(action, members.rows[m].status);
    }
  }

  lemma {:induction false} PreviewItemsExactlyWhen(members: M.Store, tenant: Id, action: M.Action, reason: string, ids: seq<Id>, faults: set<M.Error>)
    requires action != M.Grant
    ensures
      var r := PreviewItems(members, tenant, action, reason, ids, faults);
      && (r.Ok? <==> forall i :: 0 <= i < |ids| ==>
                       Why(members, tenant, action, reason, ids[i]).None? || Why(members, tenant, action, reason, ids[i]).value !in faults)
      && (r.Ok? ==> |r.value| == |ids| && forall i :: 0 <= i < |ids| ==> PreviewedAs(members, tenant, action, reason, ids[i], r.value[i]))
  {
    if ids != [] {
      var n := |ids| - 1;
      PreviewItemsExactlyWhen(members, tenant, action, reason, ids[..n], faults);
      PreviewItemExactlyWhen(members, tenant, action, reason, ids[n], faults);
      assert forall i :: 0 <= i < n ==> ids[..n][i] == ids[i];
    }
  }

  // ----- starting and taking over

  const MINUTE := 60 * 1_000_000_000

  ghost predicate AskedFor(db: DB, batchId: Id, tenant: Id, allowance: Option<int>) {
    && batchId != NIL && (allowance.Some? ==> allowance.value >= 0)
    && batchId in db.batches && db.batches[batchId].tenant == tenant
  }

  /** The preview has not expired. */
  ghost predicate MayStart(b: Batch, now: int) {
    b.phase == Previewed && now <= b.expiresAt
  }

  /** The last request was not heard from for thirty seconds, and the allowance is not a different one. */
  ghost predicate MayResume(b: Batch, now: int, allowance: Option<int>) {
    && b.phase == Executing && (b.heartbeat.Some? ==> now > b.heartbeat.value + 30 * 1_000_000_000)
    && (allowance.Some? ==> b.failOnErrors == allowance)
  }

  /** The lease is the request's, the clock is noted, and nothing else of the tables changed. */
  ghost predicate Leased(db: DB, db': DB, batchId: Id, lease: Id, now: int, allowance: Option<int>)
    requires batchId in db.batches
  {
    var b := db.batches[batchId];
    && db'.members == db.members && batchId in db'.batches
    && db'.batches == db.batches[batchId := db'.batches[batchId]]
    && db'.batches[batchId] == b.(phase := Executing, lease := Some(lease), heartbeat := Some(now),
                                  failOnErrors := if b.phase == Previewed then allowance else b.failOnErrors)
  }

  ghost predicate BeginRefusedAs(db: DB, batchId: Id, tenant: Id, now: int, allowance: Option<int>, error: Error) {
    if batchId == NIL || (allowance.Some? && allowance.value < 0) then error == Invalid
    else if batchId !in db.batches || db.batches[batchId].tenant != tenant then error == NotFound
    else
      var b := db.batches[batchId];
      match b.phase
      case Previewed => error == Expired
      case Executing => if b.heartbeat.Some? && now <= b.heartbeat.value + 30 * 1_000_000_000 then error == StillExecuting else error == Invalid
      case Executed => error == NotPreviewed
  }

  /** A lease is taken exactly when a preview still stands or an execution has gone quiet. */
  lemma BeginExactlyWhen(db: DB, batchId: Id, tenant: Id, lease: Id, now: int, allowance: Option<int>)
    ensures
      var r := BeginTx(db, batchId, tenant, lease, now, allowance);
      && (r.Ok? <==> AskedFor(db, batchId, tenant, allowance)
                     && (MayStart(db.batches[batchId], now) || MayResume(db.batches[batchId], now, allowance)))
      && (r.Ok? ==> Leased(db, r.value, batchId, lease, now, allowance))
      && (r.Err? ==> BeginRefusedAs(db, batchId, tenant, now, allowance, r.error))
  {
  }

  // ----- one item, its failure, and the end

  /** The request holds the batch. */
  ghost predicate Has(db: DB, batchId: Id, lease: Id) {
    batchId in db.batches && db.batches[batchId].phase == Executing && db.batches[batchId].lease == Some(lease)
  }

  ghost function CommandOf(b: Batch, i: nat): M.Command
    requires i < |b.items| && b.items[i].read.Some?
  {
    M.Command(b.items[i].membership, b.items[i].read.value.version, b.reason)
  }

  /** The batch row with one outcome set, and the clock noted. */
  ghost predicate Noted(b: Batch, b': Batch, i: nat, outcome: Option<Outcome>, now: int)
    requires i < |b.items|
  {
    b' == b.(heartbeat := Some(now), items := b.items[i := b.items[i].(outcome := outcome)])
  }

  /** An open item's transaction commits exactly when its transition may be made at the version previewed. */
  lemma ItemExactlyWhen(db: DB, batchId: Id, lease: Id, loaded: Batch, i: nat, now: int, eventId: Id)
    requires i < |loaded.items| && loaded.items[i].read.Some? && loaded.action != M.Grant
    requires Has(db, batchId, lease) ==> i < |db.batches[batchId].items| && db.batches[batchId].items[i].outcome.None?
    ensures
      var r := ItemTx(db, batchId, lease, loaded, i, now, eventId);
      && (r.Ok? <==> Has(db, batchId, lease) && May(db.members, loaded.tenant, loaded.action, CommandOf(loaded, i)) && !Used(db.members, eventId))
      && (r.Err? ==> (r.error == LeaseLost <==> !Has(db, batchId, lease)))
      && (r.Ok? ==>
            && Moved(db.members, r.value.members, loaded.items[i].membership, loaded.action, eventId, M.BatchItem(batchId, i))
            && batchId in r.value.batches && r.value.batches == db.batches[batchId := r.value.batches[batchId]]
            && Noted(db.batches[batchId], r.value.batches[batchId], i, Some(Succeeded(eventId, loaded.items[i].read.value.version + 1)), now))
  {
    TransitionExactlyWhen(db.members, loaded.tenant, loaded.action, CommandOf(loaded, i), eventId, M.BatchItem(batchId, i));
  }

  lemma RecordExactlyWhen(db: DB, batchId: Id, lease: Id, i: nat, now: int)
    requires batchId in db.batches ==> i < |db.batches[batchId].items|
    ensures
      var r := RecordTx(db, batchId, lease, i, now);
      && (r.Ok? <==> Has(db, batchId, lease)) && (r.Err? ==> r.error == LeaseLost)
      && (r.Ok? ==>
            && r.value.members == db.members && batchId in r.value.batches
            && r.value.batches == db.batches[batchId := r.value.batches[batchId]]
            && Noted(db.batches[batchId], r.value.batches[batchId], i,
                     if db.batches[batchId].items[i].outcome.None? then Some(Failed) else db.batches[batchId].items[i].outcome, now))
  {
    if Has(db, batchId, lease) && db.batches[batchId].items[i].outcome.Some? {
      var items := db.batches[batchId].items;
      assert items[i := items[i].(outcome := items[i].outcome)] == items;
    }
  }

  /** Every item without an outcome gets one: refused at the preview, or left for the allowance. */
  ghost predicate Closed(b: Batch, b': Batch, now: int) {
    && b' == b.(phase := Executed, heartbeat := Some(now), items := b'.items) && |b'.items| == |b.items|
    && forall k :: 0 <= k < |b.items| ==>
         b'.items[k] == b.items[k].(outcome :=
           if b.items[k].outcome.Some? then b.items[k].outcome
           else Some(NotAttempted(if b.items[k].refusal.Some? then RefusedAtPreview else ErrorAllowance)))
  }

  lemma CompleteExactlyWhen(db: DB, batchId: Id, lease: Id, now: int)
    ensures
      var r := CompleteTx(db, batchId, lease, now);
      && (r.Ok? <==> Has(db, batchId, lease)) && (r.Err? ==> r.error == LeaseLost)
      && (r.Ok? ==>
            && r.value.members == db.members && batchId in r.value.batches
            && r.value.batches == db.batches[batchId := r.value.batches[batchId]]
            && Closed(db.batches[batchId], r.value.batches[batchId], now))
  {
  }
}
