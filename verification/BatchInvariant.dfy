/** What every run of the batch protocol keeps. */
module BatchInvariant {
  import opened Base
  import opened Projection
  import opened Batch
  import M = Membership

  // ----- one batch

  ghost predicate SameItem(a: Item, b: Item) {
    a == b.(outcome := a.outcome)
  }

  /** The same batch at another moment: what the preview wrote is never rewritten. */
  ghost predicate SameBatch(a: Batch, b: Batch) {
    && a.tenant == b.tenant && a.action == b.action && a.reason == b.reason && a.expiresAt == b.expiresAt
    && |a.items| == |b.items|
    && forall i :: 0 <= i < |a.items| ==> SameItem(a.items[i], b.items[i])
  }

  predicate Attempted(item: Item) {
    item.outcome.Some? && !item.outcome.value.NotAttempted?
  }

  /** What a preview promises of each item, and its two counts. */
  ghost predicate Shape(b: Batch) {
    && b.action != M.Grant && (b.action == M.Revoke ==> !Blank(b.reason))
    && (forall i :: 0 <= i < |b.items| ==> b.items[i].membership != NIL)
    && (forall i :: 0 <= i < |b.items| && b.items[i].refusal.None? ==>
          && b.items[i].read.Some?
          && M.Resolve(b.action, b.items[i].read.value.status).Ok?
          && b.items[i].resulting == Some(M.Resolve(b.action, b.items[i].read.value.status).value))
    && b.wouldNotChange == CountRefused(b.items)
    && b.wouldChange + b.wouldNotChange == |b.items|
  }

  /** In position order, an item is attempted only after every item before it that would change. */
  ghost predicate Prefix(items: seq<Item>) {
    forall i, j :: 0 <= i < j < |items| && items[i].refusal.None? && Attempted(items[j]) ==> Attempted(items[i])
  }

  ghost predicate WithinAllowance(b: Batch) {
    b.failOnErrors.Some? ==> CountFailed(b.items) <= b.failOnErrors.value + 1
  }

  ghost predicate Progress(b: Batch) {
    match b.phase
    case Previewed =>
      b.lease.None? && forall i :: 0 <= i < |b.items| ==> b.items[i].outcome.None?
    case Executing =>
      && b.lease.Some?
      && (forall i :: 0 <= i < |b.items| && b.items[i].outcome.Some? ==> b.items[i].refusal.None? && Attempted(b.items[i]))
      && Prefix(b.items) && WithinAllowance(b)
    case Executed =>
      && (forall i :: 0 <= i < |b.items| ==>
            && b.items[i].outcome.Some?
            && (b.items[i].refusal.Some? <==> b.items[i].outcome.value == NotAttempted(RefusedAtPreview)))
      && Prefix(b.items) && WithinAllowance(b)
  }

  /** Where items were left for the allowance, recorded failures and unheard successes add up to one more than it. */
  ghost predicate Stopped(b: Batch, unheard: nat) {
    forall i :: 0 <= i < |b.items| && b.items[i].outcome == Some(NotAttempted(ErrorAllowance)) ==>
      b.failOnErrors.Some? && CountFailed(b.items) + unheard == b.failOnErrors.value + 1
  }

  // ----- a batch and the Membership events

  /** e is the event the item's own transition committed: the previewed status at the version read plus one. */
  ghost predicate Own(events: seq<Record<M.Body>>, batchId: Id, b: Batch, i: nat, e: Record<M.Body>)
    requires i < |b.items|
  {
    var item := b.items[i];
    && e in events
    && e.body.origin == M.BatchItem(batchId, i)
    && e.key == item.membership
    && item.read.Some? && e.version == item.read.value.version + 1
    && item.resulting == Some(e.body.row.status)
  }

  ghost predicate OutcomeHasEvent(events: seq<Record<M.Body>>, batchId: Id, b: Batch, i: nat)
    requires i < |b.items|
  {
    b.items[i].outcome.Some? && b.items[i].outcome.value.Succeeded? ==>
      exists e :: Own(events, batchId, b, i, e)
                  && b.items[i].outcome.value == Succeeded(e.body.eventId, e.version)
  }

  ghost predicate EventHasOutcome(batches: map<Id, Batch>, e: Record<M.Body>) {
    e.body.origin.BatchItem? ==>
      && e.body.origin.batch in batches
      && e.body.origin.position < |batches[e.body.origin.batch].items|
      && batches[e.body.origin.batch].items[e.body.origin.position].outcome == Some(Succeeded(e.body.eventId, e.version))
  }

  ghost predicate ReadAt(events: seq<Record<M.Body>>, tenant: Id, item: Item, e: Record<M.Body>) {
    && item.read.Some? && e in events && e.key == item.membership && e.body.row.tenant == tenant
    && e.version == item.read.value.version && e.body.row.status == item.read.value.status
  }

  /** The preview read a published version of the Membership. */
  ghost predicate ReadPublished(events: seq<Record<M.Body>>, b: Batch) {
    forall i :: 0 <= i < |b.items| && b.items[i].read.Some? ==> exists e :: ReadAt(events, b.tenant, b.items[i], e)
  }

  ghost predicate Linked(db: DB) {
    && (forall id :: id in db.batches ==> ReadPublished(db.members.events, db.batches[id]))
    && (forall id, i :: id in db.batches && 0 <= i < |db.batches[id].items| ==>
          OutcomeHasEvent(db.members.events, id, db.batches[id], i))
    && (forall e :: e in db.members.events ==> EventHasOutcome(db.batches, e))
  }

  // ----- a request

  /**
   While a request holds the lease, the rows it loaded and its place in the loop describe the
   stored rows: nothing at or after its place has moved, everything before it that would change is
   attempted, and its count of failures is the recorded ones and the successes it did not hear of.
   */
  ghost predicate Tracks(b: Batch, r: Request)
    requires SameBatch(r.batch, b)
  {
    var n := |b.items|;
    match r.pc
    case Ended => true
    case Loop(i, f) =>
      && r.batch.failOnErrors == b.failOnErrors
      && (forall j :: 0 <= j < n && j < i && b.items[j].refusal.None? ==> Attempted(b.items[j]))
      && (forall j :: i <= j < n ==> b.items[j].outcome == r.batch.items[j].outcome)
      && CountFailed(b.items) + r.unheard == f
      && (b.failOnErrors.Some? ==> f <= b.failOnErrors.value + 1)
    case Recording(i, f) =>
      && r.batch.failOnErrors == b.failOnErrors
      && i < n && b.items[i].refusal.None?
      && (forall j :: 0 <= j < i && b.items[j].refusal.None? ==> Attempted(b.items[j]))
      && (forall j :: i < j < n ==> b.items[j].outcome == r.batch.items[j].outcome)
      && CountFailed(b.items) + r.unheard + (if b.items[i].outcome.None? then 1 else 0) == f
      && (b.failOnErrors.Some? ==> f <= b.failOnErrors.value + 1)
  }

  ghost predicate RequestOk(w: World, lease: Id)
    requires lease in w.requests
  {
    var r := w.requests[lease];
    && r.batchId in w.db.batches
    && w.db.batches[r.batchId].phase != Previewed
    && SameBatch(r.batch, w.db.batches[r.batchId])
    && (HoldsLease(w.db, r.batchId, lease) ==> Tracks(w.db.batches[r.batchId], r))
  }

  /** A lease in the table was minted by a request for that batch. */
  ghost predicate LeaseMinted(w: World, id: Id)
    requires id in w.db.batches
  {
    w.db.batches[id].lease.Some? ==>
      w.db.batches[id].lease.value in w.requests && w.requests[w.db.batches[id].lease.value].batchId == id
  }

  ghost predicate BatchOk(w: World, id: Id)
    requires id in w.db.batches
  {
    && id != NIL && Shape(w.db.batches[id]) && Progress(w.db.batches[id]) && LeaseMinted(w, id)
    && (w.db.batches[id].phase == Executed ==>
          w.db.batches[id].lease.Some? && Stopped(w.db.batches[id], w.requests[w.db.batches[id].lease.value].unheard))
  }

  datatype Part = StorePart | BatchesPart | RequestsPart

  ghost predicate Keeps(w: World, part: Part) {
    match part
    case StorePart => M.Valid(w.db.members) && Linked(w.db)
    case BatchesPart => forall id :: id in w.db.batches ==> BatchOk(w, id)
    case RequestsPart => forall lease :: lease in w.requests ==> RequestOk(w, lease)
  }

  /** The invariant, part by part: a proof that only passes it along unfolds none of them. */
  ghost predicate Inv(w: World) {
    forall part: Part :: Keeps(w, part)
  }

  lemma Fold(w: World)
    requires M.Valid(w.db.members) && Linked(w.db)
    requires forall id :: id in w.db.batches ==> BatchOk(w, id)
    requires forall lease :: lease in w.requests ==> RequestOk(w, lease)
    ensures Inv(w)
  {
    forall part: Part ensures Keeps(w, part) {
      match part
      case _ =>
    }
  }

  lemma TheStore(w: World)
    requires Inv(w)
    ensures M.Valid(w.db.members) && Linked(w.db)
  {
    assert Keeps(w, StorePart);
  }

  lemma TheBatch(w: World, id: Id)
    requires Inv(w) && id in w.db.batches
    ensures BatchOk(w, id)
  {
    assert Keeps(w, BatchesPart);
  }

  lemma TheRequest(w: World, lease: Id)
    requires Inv(w) && lease in w.requests
    ensures RequestOk(w, lease) && BatchOk(w, w.requests[lease].batchId)
  {
    assert Keeps(w, RequestsPart) && Keeps(w, BatchesPart);
  }

  // ----- counting

  lemma {:induction false} CountFailedUpdate(items: seq<Item>, i: nat, item: Item)
    requires i < |items|
    ensures CountFailed(items[i := item]) ==
            CountFailed(items) - (if items[i].outcome == Some(Failed) then 1 else 0)
            + (if item.outcome == Some(Failed) then 1 else 0)
  {
    var n := |items| - 1;
    if i < n {
      assert items[i := item][..n] == items[..n][i := item];
      CountFailedUpdate(items[..n], i, item);
    } else {
      assert items[i := item][..n] == items[..n];
    }
  }

  lemma {:induction false} CountFailedSettled(items: seq<Item>)
    ensures CountFailed(SettleItems(items)) == CountFailed(items)
  {
    if items != [] {
      var n := |items| - 1;
      assert SettleItems(items)[..n] == SettleItems(items[..n]);
      CountFailedSettled(items[..n]);
    }
  }

  lemma {:induction false} CountFailedNone(items: seq<Item>)
    requires forall i :: 0 <= i < |items| ==> items[i].outcome.None?
    ensures CountFailed(items) == 0
  {
    if items != [] {
      CountFailedNone(items[..|items| - 1]);
    }
  }

  lemma {:induction false} CountRefusedSame(a: seq<Item>, b: seq<Item>)
    requires |a| == |b| && forall i :: 0 <= i < |a| ==> SameItem(a[i], b[i])
    ensures CountRefused(a) == CountRefused(b)
  {
    if a != [] {
      CountRefusedSame(a[..|a| - 1], b[..|b| - 1]);
    }
  }

  // ----- one batch row changes

  /** Shape survives any change of outcomes. */
  lemma ShapeKept(a: Batch, b: Batch)
    requires Shape(a) && SameBatch(b, a)
    requires b.wouldChange == a.wouldChange && b.wouldNotChange == a.wouldNotChange
    ensures Shape(b)
  {
    CountRefusedSame(b.items, a.items);
    forall i | 0 <= i < |b.items| ensures b.items[i] == a.items[i].(outcome := b.items[i].outcome) {
      assert SameItem(b.items[i], a.items[i]);
    }
  }

  lemma SameBatchTransitive(a: Batch, b: Batch, c: Batch)
    requires SameBatch(a, b) && SameBatch(c, b)
    ensures SameBatch(a, c)
  {
    forall i | 0 <= i < |a.items| ensures SameItem(a.items[i], c.items[i]) {
      assert SameItem(a.items[i], b.items[i]) && SameItem(c.items[i], b.items[i]);
    }
  }
}
