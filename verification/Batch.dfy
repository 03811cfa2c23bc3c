/**
 Membership batches: a preview, then an execution that runs one transaction per item under a lease,
 which any later request may take over (internal/membership/batch.go). Every transaction is a
 function of the database; a run interleaves the transactions of any number of requests with
 ordinary Membership changes, at arbitrary clock readings.
 */
module Batch {
  import opened Base
  import opened Projection
  import M = Membership

  // ----- the stored batch

  datatype Reason = RefusedAtPreview | ErrorAllowance

  datatype Outcome = Succeeded(event: Id, version: int) | Failed | NotAttempted(reason: Reason)

  /** What the preview read of the Membership. */
  datatype Read = Read(status: M.State, version: int)

  datatype Item = Item(membership: Id, read: Option<Read>, resulting: Option<M.State>, refusal: Option<M.Error>,
                       outcome: Option<Outcome>)

  datatype Phase = Previewed | Executing | Executed

  datatype Batch = Batch(tenant: Id, action: M.Action, reason: string, phase: Phase, expiresAt: int,
                         wouldChange: nat, wouldNotChange: nat, failOnErrors: Option<int>,
                         lease: Option<Id>, heartbeat: Option<int>, items: seq<Item>)

  datatype DB = DB(members: M.Store, batches: map<Id, Batch>)

  const MAX_BATCH_ITEMS := 500
  const BATCH_TTL := 15 * 60 * SECOND
  const BATCH_LEASE := 30 * SECOND

  datatype Error =
    | Invalid | TooLarge | ReasonRequired | NotFound | Expired | NotPreviewed | StillExecuting | LeaseLost
    | ItemError(error: M.Error)

  // ----- preview

  predicate Distinct(ids: seq<Id>) {
    forall i, j :: 0 <= i < j < |ids| ==> ids[i] != ids[j]
  }

  function ValidateRequest(action: M.Action, ids: seq<Id>, reason: string): Option<Error> {
    if action == M.Grant || |ids| == 0 then Some(Invalid)
    else if |ids| > MAX_BATCH_ITEMS then Some(TooLarge)
    else if action == M.Revoke && Blank(reason) then Some(ReasonRequired)
    else if NIL in ids || !Distinct(ids) then Some(Invalid)
    else None
  }

  /**
   One item through the single command's checks. An error the classifier calls a server fault
   aborts the preview; every other one is the item's refusal.
   */
  function PreviewItem(members: M.Store, tenant: Id, action: M.Action, reason: string, m: Id, faults: set<M.Error>)
    : Result<Item, Error>
  {
    var current := M.Load(members, tenant, m);
    if current.Err? then Refuse(Item(m, None, None, None, None), current.error, faults)
    else
      var item := Item(m, Some(Read(current.value.status, current.value.version)), None, None, None);
      var invalid := M.Validate(action, M.Command(m, current.value.version, reason));
      if invalid.Some? then Refuse(item, invalid.value, faults)
      else
        var next := M.Decide(action, current.value, current.value.version);
        if next.Err? then Refuse(item, next.error, faults) else Ok(item.(resulting := Some(next.value)))
  }

  function Refuse(item: Item, error: M.Error, faults: set<M.Error>): Result<Item, Error> {
    if error in faults then Err(ItemError(error)) else Ok(item.(refusal := Some(error)))
  }

  function PreviewItems(members: M.Store, tenant: Id, action: M.Action, reason: string, ids: seq<Id>, faults: set<M.Error>)
    : Result<seq<Item>, Error>
  {
    if ids == [] then Ok([])
    else
      var before := PreviewItems(members, tenant, action, reason, ids[..|ids| - 1], faults);
      if before.Err? then before
      else
        var item := PreviewItem(members, tenant, action, reason, ids[|ids| - 1], faults);
        if item.Err? then Err(item.error) else Ok(before.value + [item.value])
  }

  lemma PreviewItemsAppend(members: M.Store, tenant: Id, action: M.Action, reason: string, ids: seq<Id>, m: Id, faults: set<M.Error>)
    ensures
      var before := PreviewItems(members, tenant, action, reason, ids, faults);
      var item := PreviewItem(members, tenant, action, reason, m, faults);
      PreviewItems(members, tenant, action, reason, ids + [m], faults)
      == if before.Err? then before else if item.Err? then Err(item.error) else Ok(before.value + [item.value])
  {
    assert (ids + [m])[..|ids|] == ids;
  }

  function CountRefused(items: seq<Item>): nat {
    if items == [] then 0
    else CountRefused(items[..|items| - 1]) + if items[|items| - 1].refusal.Some? then 1 else 0
  }

  function PreviewTx(db: DB, batchId: Id, tenant: Id, action: M.Action, ids: seq<Id>, reason: string, now: int,
                     faults: set<M.Error>): Result<DB, Error>
  {
    var invalid := ValidateRequest(action, ids, reason);
    if invalid.Some? then Err(invalid.value)
    else if batchId == NIL || batchId in db.batches then Err(ItemError(M.DatabaseFault))
    else
      var items := PreviewItems(db.members, tenant, action, reason, ids, faults);
      if items.Err? then Err(items.error)
      else Ok(db.(batches := db.batches[batchId := NewBatch(tenant, action, reason, now, items.value)]))
  }

  function NewBatch(tenant: Id, action: M.Action, reason: string, now: int, items: seq<Item>): Batch {
    CountRefusedBound(items);
    Batch(tenant, action, reason, Previewed, now + BATCH_TTL, |items| - CountRefused(items), CountRefused(items), None, None, None, items)
  }

  lemma CountRefusedBound(items: seq<Item>)
    ensures CountRefused(items) <= |items|
  {
  }

  // ----- the transactions of an execution

  /** Starts a preview, or resumes an execution whose heartbeat is stale, and takes the lease. */
  function BeginTx(db: DB, batchId: Id, tenant: Id, lease: Id, now: int, allowance: Option<int>): Result<DB, Error> {
    if batchId == NIL || (allowance.Some? && allowance.value < 0) then Err(Invalid)
    else if batchId !in db.batches || db.batches[batchId].tenant != tenant then Err(NotFound)
    else
      var b := db.batches[batchId];
      match b.phase
      case Previewed =>
        if now > b.expiresAt then Err(Expired)
        else Ok(db.(batches := db.batches[batchId :=
                  b.(phase := Executing, failOnErrors := allowance, lease := Some(lease), heartbeat := Some(now))]))
      case Executing =>
        if b.heartbeat.Some? && now <= b.heartbeat.value + BATCH_LEASE then Err(StillExecuting)
        else if allowance.Some? && b.failOnErrors != allowance then Err(Invalid)
        else Ok(db.(batches := db.batches[batchId := b.(lease := Some(lease), heartbeat := Some(now))]))
      case Executed => Err(NotPreviewed)
  }

  /** The fence matches the row only for the request that holds the lease. */
  predicate HoldsLease(db: DB, batchId: Id, lease: Id) {
    batchId in db.batches && db.batches[batchId].phase == Executing && db.batches[batchId].lease == Some(lease)
  }

  function SetItem(b: Batch, i: nat, outcome: Outcome, now: int): Batch
    requires i < |b.items|
  {
    b.(items := b.items[i := b.items[i].(outcome := Some(outcome))], heartbeat := Some(now))
  }

  /**
   One item: the fence, the item's lock, the single transition held to the version the preview
   read, and the outcome. `item` is the row as the request loaded it.
   */
  function ItemTx(db: DB, batchId: Id, lease: Id, loaded: Batch, i: nat, now: int, eventId: Id): Result<DB, Error>
    requires i < |loaded.items| && loaded.items[i].read.Some?
  {
    if !HoldsLease(db, batchId, lease) then Err(LeaseLost)
    else
      var b := db.batches[batchId];
      if i >= |b.items| then Err(ItemError(M.DatabaseFault))
      else if b.items[i].outcome.Some? then Ok(db.(batches := db.batches[batchId := b.(heartbeat := Some(now))]))
      else
        var item := loaded.items[i];
        var r := M.TransitionWithin(db.members, loaded.tenant, loaded.action,
                                    M.Command(item.membership, item.read.value.version, loaded.reason),
                                    eventId, M.BatchItem(batchId, i));
        if r.Err? then Err(ItemError(r.error))
        else Ok(DB(r.value, db.batches[batchId := SetItem(b, i, Succeeded(eventId, item.read.value.version + 1), now)]))
  }

  /** A failure is recorded under the fence, where the item still has no outcome. */
  function RecordTx(db: DB, batchId: Id, lease: Id, i: nat, now: int): Result<DB, Error> {
    if !HoldsLease(db, batchId, lease) then Err(LeaseLost)
    else
      var b := db.batches[batchId];
      if i < |b.items| && b.items[i].outcome.None? then Ok(db.(batches := db.batches[batchId := SetItem(b, i, Failed, now)]))
      else Ok(db.(batches := db.batches[batchId := b.(heartbeat := Some(now))]))
  }

  function SettleItem(item: Item): Item {
    if item.outcome.Some? then item
    else item.(outcome := Some(NotAttempted(if item.refusal.Some? then RefusedAtPreview else ErrorAllowance)))
  }

  function SettleItems(items: seq<Item>): seq<Item> {
    seq(|items|, i requires 0 <= i < |items| => SettleItem(items[i]))
  }

  function CompleteTx(db: DB, batchId: Id, lease: Id, now: int): Result<DB, Error> {
    if !HoldsLease(db, batchId, lease) then Err(LeaseLost)
    else
      var b := db.batches[batchId];
      Ok(db.(batches := db.batches[batchId :=
           b.(phase := Executed, heartbeat := Some(now), items := SettleItems(b.items))]))
  }

  // ----- requests, and the run

  /** Loop(i, f): before item i with f failures counted. Recording(i, f): item i failed, not recorded yet. */
  datatype Pc = Loop(i: nat, failures: nat) | Recording(i: nat, failures: nat) | Ended

  /**
   `unheard` is how many of the request's own item transactions committed without its hearing so: a
   history annotation, which the request does not know.
   */
  datatype Request = Request(batchId: Id, batch: Batch, pc: Pc, unheard: nat)

  /** Requests are named by the lease identifier each one mints. */
  datatype World = World(db: DB, requests: map<Id, Request>)

  const START := World(DB(M.EMPTY, map[]), map[])

  /**
   How a transaction ended for the request that ran it: it answered, it failed and rolled back, or
   it committed and the acknowledgement was lost.
   */
  datatype Fate = Answered | RolledBack | Unacknowledged

  datatype Step =
    | Preview(batchId: Id, tenant: Id, action: M.Action, ids: seq<Id>, reason: string, now: int, faults: set<M.Error>)
    | Begin(batchId: Id, tenant: Id, lease: Id, now: int, allowance: Option<int>)
    | Next(lease: Id, now: int, eventId: Id, fate: Fate)
    | Crash(lease: Id)
    | Other(op: M.Op)

  function CountFailed(items: seq<Item>): nat {
    if items == [] then 0
    else CountFailed(items[..|items| - 1]) + if items[|items| - 1].outcome == Some(Failed) then 1 else 0
  }

  /** The loop passes over an item refused at preview or already settled when the batch was loaded. */
  predicate Skips(item: Item) {
    item.refusal.Some? || item.read.None? || item.outcome.Some?
  }

  predicate Exhausted(b: Batch, failures: nat) {
    b.failOnErrors.Some? && failures > b.failOnErrors.value
  }

  /** The next transaction of a request, or the next turn of its loop. */
  function NextOf(db: DB, lease: Id, r: Request, now: int, eventId: Id, fate: Fate): (DB, Pc) {
    match r.pc
    case Ended => (db, Ended)
    case Loop(i, f) =>
      if i >= |r.batch.items| || (!Skips(r.batch.items[i]) && Exhausted(r.batch, f)) then
        var done := CompleteTx(db, r.batchId, lease, now);
        (if done.Ok? && fate != RolledBack then done.value else db, Ended)
      else if Skips(r.batch.items[i]) then (db, Loop(i + 1, f))
      else
        var done := ItemTx(db, r.batchId, lease, r.batch, i, now, eventId);
        if fate == RolledBack then (db, Recording(i, f + 1))
        else if done.Ok? then (done.value, if fate == Answered then Loop(i + 1, f) else Recording(i, f + 1))
        else if done.error == LeaseLost then (db, Ended)
        else (db, Recording(i, f + 1))
    case Recording(i, f) =>
      var done := RecordTx(db, r.batchId, lease, i, now);
      if done.Ok? && fate == Answered then (done.value, Loop(i + 1, f))
      else (if done.Ok? && fate == Unacknowledged then done.value else db, Ended)
  }

  /** The step commits an item's transaction and its acknowledgement is lost. */
  predicate CommitsUnheard(db: DB, lease: Id, r: Request, now: int, eventId: Id, fate: Fate) {
    && fate == Unacknowledged && r.pc.Loop? && r.pc.i < |r.batch.items|
    && !Skips(r.batch.items[r.pc.i]) && !Exhausted(r.batch, r.pc.failures)
    && ItemTx(db, r.batchId, lease, r.batch, r.pc.i, now, eventId).Ok?
  }

  function Take(w: World, s: Step): World {
    match s
    case Preview(batchId, tenant, action, ids, reason, now, faults) =>
      var r := PreviewTx(w.db, batchId, tenant, action, ids, reason, now, faults);
      if r.Ok? then w.(db := r.value) else w
    case Begin(batchId, tenant, lease, now, allowance) =>
      var r := BeginTx(w.db, batchId, tenant, lease, now, allowance);
      // a lease identifier is minted once
      if lease in w.requests || r.Err? then w
      else
        var b := r.value.batches[batchId];
        World(r.value, w.requests[lease := Request(batchId, b, Loop(0, CountFailed(b.items)), 0)])
    case Next(lease, now, eventId, fate) =>
      if lease !in w.requests then w
      else
        var r := w.requests[lease];
        var (db, pc) := NextOf(w.db, lease, r, now, eventId, fate);
        var unheard := r.unheard + if CommitsUnheard(w.db, lease, r, now, eventId, fate) then 1 else 0;
        World(db, w.requests[lease := r.(pc := pc, unheard := unheard)])
    case Crash(lease) =>
      if lease !in w.requests then w else w.(requests := w.requests[lease := w.requests[lease].(pc := Ended)])
    case Other(op) =>
      w.(db := w.db.(members := M.Apply(w.db.members, op)))
  }

  function Exec(w: World, steps: seq<Step>): World {
    if steps == [] then w else Take(Exec(w, steps[..|steps| - 1]), steps[|steps| - 1])
  }
}
