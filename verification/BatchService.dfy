/**
 The service methods as they run: loops over items with local counters, one transaction at a time,
 with whatever other requests do in between. Each is proved to be a run of the protocol.
 */
module BatchService {
  import opened Base
  import opened Batch
  import opened BatchInvariant
  import opened BatchSteps
  import opened BatchResults
  import opened BatchRules
  import opened MembershipRules
  import M = Membership

  /** What a request cannot control, by the number of its transaction: interleaved steps, clock, identifiers, faults. */
  datatype Surroundings = Surroundings(others: nat -> seq<Step>, clock: nat -> int, eventIds: nat -> Id, fates: nat -> Fate)

  /** Nobody else acts, and every transaction answers. */
  ghost predicate Undisturbed(s: Surroundings) {
    (forall k :: s.others(k) == []) && (forall k :: s.fates(k) == Answered)
  }

  /** A request at this clock reading takes the lease. */
  ghost predicate Takes(db: DB, batchId: Id, tenant: Id, now: int, allowance: Option<int>) {
    AskedFor(db, batchId, tenant, allowance) && (MayStart(db.batches[batchId], now) || MayResume(db.batches[batchId], now, allowance))
  }

  /** Steps of anybody but the request that minted `lease`. */
  predicate Strangers(steps: seq<Step>, lease: Id) {
    forall i :: 0 <= i < |steps| ==>
      !((steps[i].Begin? || steps[i].Next? || steps[i].Crash?) && steps[i].lease == lease)
  }

  lemma OthersKeepRequest(w: World, s: Step, lease: Id)
    requires Strangers([s], lease)
    ensures lease in w.requests <==> lease in Take(w, s).requests
    ensures lease in w.requests ==> Take(w, s).requests[lease] == w.requests[lease]
  {
    assert [s][0] == s;
  }

  /** How many items succeeded, failed and were not attempted. */
  method Counts(items: seq<Item>) returns (succeeded: nat, failed: nat, notAttempted: nat)
    ensures succeeded == CountSucceeded(items) && failed == CountFailed(items)
    ensures notAttempted == CountNotAttempted(items, RefusedAtPreview) + CountNotAttempted(items, ErrorAllowance)
  {
    succeeded, failed, notAttempted := 0, 0, 0;
    for i := 0 to |items|
      invariant succeeded == CountSucceeded(items[..i]) && failed == CountFailed(items[..i])
      invariant notAttempted == CountNotAttempted(items[..i], RefusedAtPreview) + CountNotAttempted(items[..i], ErrorAllowance)
    {
      assert items[..i + 1][..i] == items[..i];
      match items[i].outcome {
        case None =>
        case Some(Succeeded(_, _)) => succeeded := succeeded + 1;
        case Some(Failed) => failed := failed + 1;
        case Some(NotAttempted(reason)) =>
          assert reason == RefusedAtPreview || reason == ErrorAllowance;
          notAttempted := notAttempted + 1;
      }
    }
    assert items[..|items|] == items;
  }

  /** Evaluates one more item after those already evaluated. */
  method PreviewsNext(members: M.Store, tenant: Id, action: M.Action, ghost done: seq<Id>, m: Id, reason: string, faults: set<M.Error>, items: seq<Item>)
    returns (r: Result<seq<Item>, Error>, refused: bool)
    requires PreviewItems(members, tenant, action, reason, done, faults) == Ok(items)
    ensures r == PreviewItems(members, tenant, action, reason, done + [m], faults)
    ensures r.Ok? ==> |r.value| == |items| + 1 && CountRefused(r.value) == CountRefused(items) + if refused then 1 else 0
  {
    PreviewItemsAppend(members, tenant, action, reason, done, m, faults);
    var item := PreviewItem(members, tenant, action, reason, m, faults);
    if item.Err? {
      return Err(item.error), false;
    }
    assert (items + [item.value])[..|items|] == items;
    return Ok(items + [item.value]), item.value.refusal.Some?;
  }

  /** Evaluates every item, and counts those that would change and those that would not. */
  method PreviewsItems(members: M.Store, tenant: Id, action: M.Action, ids: seq<Id>, reason: string, faults: set<M.Error>)
    returns (r: Result<seq<Item>, Error>, wouldChange: nat, wouldNotChange: nat)
    ensures r == PreviewItems(members, tenant, action, reason, ids, faults)
    ensures r.Ok? ==> |r.value| == |ids| && wouldNotChange == CountRefused(r.value) && wouldChange + wouldNotChange == |ids|
  {
    r, wouldChange, wouldNotChange := Ok([]), 0, 0;
    for k := 0 to |ids|
      invariant r.Ok? && |r.value| == k && r == PreviewItems(members, tenant, action, reason, ids[..k], faults)
      invariant wouldNotChange == CountRefused(r.value) && wouldChange + wouldNotChange == k
    {
      var refused;
      r, refused := PreviewsNext(members, tenant, action, ids[..k], ids[k], reason, faults, r.value);
      assert ids[..k] + [ids[k]] == ids[..k + 1];
      if r.Err? {
        PreviewStops(members, tenant, action, reason, ids, k + 1, faults);
        return;
      }
      if refused {
        wouldNotChange := wouldNotChange + 1;
      } else {
        wouldChange := wouldChange + 1;
      }
    }
    assert ids[..|ids|] == ids;
  }

  /** What a preview stores: each item as its own command would meet it now, for the next fifteen minutes. */
  ghost predicate IsPreview(b: Batch, members: M.Store, tenant: Id, action: M.Action, ids: seq<Id>, reason: string, now: int) {
    && b.tenant == tenant && b.action == action && b.reason == reason && b.phase == Previewed
    && b.expiresAt == now + 15 * MINUTE && b.lease.None? && |b.items| == |ids|
    && forall i :: 0 <= i < |ids| ==> PreviewedAs(members, tenant, action, reason, ids[i], b.items[i])
  }

  /** The checks, the items and the counters of a preview, and the batch they make. */
  method PreviewsBatch(db: DB, batchId: Id, tenant: Id, action: M.Action, ids: seq<Id>, reason: string, now: int, faults: set<M.Error>)
    returns (r: Result<Batch, Error>)
    ensures PreviewTx(db, batchId, tenant, action, ids, reason, now, faults)
            == if r.Ok? then Ok(db.(batches := db.batches[batchId := r.value])) else Err(r.error)
    ensures r.Ok? <==>
              && BatchWellAsked(action, ids, reason) && batchId != NIL && batchId !in db.batches
              && forall i :: 0 <= i < |ids| ==>
                   var why := Why(db.members, tenant, action, reason, ids[i]);
                   why.None? || why.value !in faults
    ensures r.Ok? ==> IsPreview(r.value, db.members, tenant, action, ids, reason, now)
  {
    ValidExactlyWhen(action, ids, reason);
    if action != M.Grant {
      PreviewItemsExactlyWhen(db.members, tenant, action, reason, ids, faults);
    }
    var invalid := ValidateRequest(action, ids, reason);
    if invalid.Some? {
      r := Err(invalid.value);
    } else if batchId == NIL || batchId in db.batches {
      r := Err(ItemError(M.DatabaseFault));
    } else {
      var items, wouldChange, wouldNotChange := PreviewsItems(db.members, tenant, action, ids, reason, faults);
      if items.Err? {
        r := Err(items.error);
      } else {
        r := Ok(Batch(tenant, action, reason, Previewed, now + BATCH_TTL, wouldChange, wouldNotChange, None, None, None, items.value));
        assert r.value == NewBatch(tenant, action, reason, now, items.value);
      }
    }
  }

  /**
   One item's transaction, by what it finds: under the lease, its transition is made exactly when it
   may be at the version previewed, with its outcome; otherwise nothing changes.
   */
  ghost predicate ItemOutcome(db: DB, db': DB, batchId: Id, lease: Id, loaded: Batch, i: nat, now: int, eventId: Id, fate: Fate, err: Option<Error>)
    requires i < |loaded.items| && loaded.items[i].read.Some?
  {
    var may := Has(db, batchId, lease) && May(db.members, loaded.tenant, loaded.action, CommandOf(loaded, i)) && !Used(db.members, eventId);
    && (err.None? <==> may && fate == Answered)
    && (err == Some(LeaseLost) <==> !Has(db, batchId, lease) && fate != RolledBack)
    && (!may || fate == RolledBack ==> db' == db)
    && (may && fate != RolledBack ==>
          && Moved(db.members, db'.members, loaded.items[i].membership, loaded.action, eventId, M.BatchItem(batchId, i))
          && batchId in db'.batches && db'.batches == db.batches[batchId := db'.batches[batchId]]
          && i < |db.batches[batchId].items|
          && Noted(db.batches[batchId], db'.batches[batchId], i, Some(Succeeded(eventId, loaded.items[i].read.value.version + 1)), now))
  }

  /** In every run the item a holder comes to is open, so its transaction is decided by its transition alone. */
  lemma ItemOutcomeIs(history: seq<Step>, w: World, lease: Id, i: nat, f: nat, now: int, eventId: Id)
    requires w == Exec(START, history) && lease in w.requests && w.requests[lease].pc == Loop(i, f)
    requires i < |w.requests[lease].batch.items| && !Skips(w.requests[lease].batch.items[i])
    ensures
      var r := w.requests[lease];
      var done := ItemTx(w.db, r.batchId, lease, r.batch, i, now, eventId);
      var may := Has(w.db, r.batchId, lease) && May(w.db.members, r.batch.tenant, r.batch.action, CommandOf(r.batch, i)) && !Used(w.db.members, eventId);
      && (done.Ok? <==> may) && (done.Err? ==> (done.error == LeaseLost <==> !Has(w.db, r.batchId, lease)))
      && (may ==>
            && Moved(w.db.members, done.value.members, r.batch.items[i].membership, r.batch.action, eventId, M.BatchItem(r.batchId, i))
            && r.batchId in done.value.batches && done.value.batches == w.db.batches[r.batchId := done.value.batches[r.batchId]]
            && i < |w.db.batches[r.batchId].items|
            && Noted(w.db.batches[r.batchId], done.value.batches[r.batchId], i, Some(Succeeded(eventId, r.batch.items[i].read.value.version + 1)), now))
  {
    RunKeeps(history);
    TheRequest(w, lease);
    var r := w.requests[lease];
    if Has(w.db, r.batchId, lease) {
      OpenItem(w.db.batches[r.batchId], r, i, f);
    }
    ItemExactlyWhen(w.db, r.batchId, lease, r.batch, i, now, eventId);
  }

  class Service {
    /** The shared database, and where every request is. */
    var world: World

    /** Every step taken so far, by anybody. */
    ghost var history: seq<Step>

    ghost predicate Valid()
      reads this
    {
      world == Exec(START, history)
    }

    constructor ()
      ensures Valid() && history == []
    {
      world, history := START, [];
    }

    /** One step, of whichever request: what it left is what the protocol's step leaves. */
    ghost method Happened(s: Step)
      requires world == Take(Exec(START, history), s)
      modifies this`history
      ensures Valid() && history == old(history) + [s]
    {
      assert (history + [s])[..|history|] == history;
      history := history + [s];
    }

    /** Other requests run. */
    method Interleave(others: seq<Step>, lease: Id)
      requires Valid() && Strangers(others, lease)
      modifies this
      ensures Valid() && history == old(history) + others
      ensures lease in world.requests <==> lease in old(world).requests
      ensures lease in world.requests ==> world.requests[lease] == old(world).requests[lease]
      ensures others == [] ==> world == old(world)
    {
      for i := 0 to |others|
        invariant Valid() && history == old(history) + others[..i]
        invariant lease in world.requests <==> lease in old(world).requests
        invariant lease in world.requests ==> world.requests[lease] == old(world).requests[lease]
        invariant others == [] ==> world == old(world)
      {
        OthersKeepRequest(world, others[i], lease);
        world := Take(world, others[i]);
        Happened(others[i]);
        assert others[..i + 1] == others[..i] + [others[i]];
      }
      assert others[..|others|] == others;
    }

    /** Evaluates every item as its single command would, and stores the batch. */
    method PreviewBatch(batchId: Id, tenant: Id, action: M.Action, ids: seq<Id>, reason: string, now: int, faults: set<M.Error>)
      returns (r: Result<Batch, Error>)
      requires Valid()
      modifies this
      ensures Valid() && world == Take(old(world), Preview(batchId, tenant, action, ids, reason, now, faults))
      ensures r.Ok? <==> PreviewTx(old(world).db, batchId, tenant, action, ids, reason, now, faults).Ok?
      ensures r.Ok? ==> batchId in world.db.batches && world.db.batches[batchId] == r.value
      ensures r.Err? ==> world == old(world) && r.error == PreviewTx(old(world).db, batchId, tenant, action, ids, reason, now, faults).error
      ensures r.Ok? <==>
                && BatchWellAsked(action, ids, reason) && batchId != NIL && batchId !in old(world).db.batches
                && forall i :: 0 <= i < |ids| ==>
                     var why := Why(old(world).db.members, tenant, action, reason, ids[i]);
                     why.None? || why.value !in faults
      ensures r.Ok? ==> IsPreview(r.value, old(world).db.members, tenant, action, ids, reason, now)
    {
      r := PreviewsBatch(world.db, batchId, tenant, action, ids, reason, now, faults);
      if r.Ok? {
        world := world.(db := world.db.(batches := world.db.batches[batchId := r.value]));
        Happened(Preview(batchId, tenant, action, ids, reason, now, faults));
      }
    }

    /** This request's transaction left `db`, and it goes on at `pc`. */
    method Proceed(lease: Id, db: DB, pc: Pc, unheard: nat := 0)
      requires lease in world.requests
      modifies this`world
      ensures
        var r := old(world).requests[lease];
        world == World(db, old(world).requests[lease := r.(pc := pc, unheard := r.unheard + unheard)])
    {
      var r := world.requests[lease];
      world := World(db, world.requests[lease := r.(pc := pc, unheard := r.unheard + unheard)]);
    }

    /** The request is before item i of the batch it loaded, and acts next. */
    ghost predicate At(lease: Id, batchId: Id, batch: Batch, pc: Pc)
      reads this
    {
      Valid() && lease in world.requests && world.requests[lease] == Request(batchId, batch, pc, world.requests[lease].unheard)
    }

    /** Takes the lease, and loads the batch. */
    method Begins(batchId: Id, tenant: Id, lease: Id, now: int, allowance: Option<int>) returns (r: Result<Batch, Error>, failures: nat)
      requires Valid() && lease !in world.requests
      modifies this
      ensures Valid() && history == old(history) + if r.Ok? then [Begin(batchId, tenant, lease, now, allowance)] else []
      ensures r.Ok? ==> At(lease, batchId, r.value, Loop(0, failures))
      ensures r.Ok? <==>
                && AskedFor(old(world).db, batchId, tenant, allowance)
                && (MayStart(old(world).db.batches[batchId], now) || MayResume(old(world).db.batches[batchId], now, allowance))
      ensures r.Ok? ==> Leased(old(world).db, world.db, batchId, lease, now, allowance) && world.db.batches[batchId] == r.value
      ensures r.Err? ==> world == old(world) && BeginRefusedAs(old(world).db, batchId, tenant, now, allowance, r.error)
      ensures r.Err? && r.error == NotPreviewed ==> batchId in world.db.batches && world.db.batches[batchId].phase == Executed
    {
      BeginExactlyWhen(world.db, batchId, tenant, lease, now, allowance);
      failures := 0;
      var begun := BeginTx(world.db, batchId, tenant, lease, now, allowance);
      if begun.Err? {
        return Err(begun.error), 0;
      }
      var batch := begun.value.batches[batchId];
      var _, failed, _ := Counts(batch.items);
      world := World(begun.value, world.requests[lease := Request(batchId, batch, Loop(0, failed), 0)]);
      Happened(Begin(batchId, tenant, lease, now, allowance));
      return Ok(batch), failed;
    }

    /** An item refused at preview, or settled when the batch was loaded, takes no transaction. */
    method PassOver(batchId: Id, lease: Id, batch: Batch, i: nat, failures: nat)
      requires At(lease, batchId, batch, Loop(i, failures)) && i < |batch.items| && Skips(batch.items[i])
      modifies this
      ensures history == old(history) + [Next(lease, 0, 0, Answered)] && world.db == old(world).db
      ensures At(lease, batchId, batch, Loop(i + 1, failures))
    {
      Proceed(lease, world.db, Loop(i + 1, failures));
      Happened(Next(lease, 0, 0, Answered));
    }

    /** Applies one item under the lease, in its own transaction. */
    method ExecuteItem(batchId: Id, lease: Id, batch: Batch, i: nat, failures: nat, now: int, eventId: Id, fate: Fate)
      returns (err: Option<Error>)
      requires At(lease, batchId, batch, Loop(i, failures))
      requires i < |batch.items| && !Skips(batch.items[i]) && !Exhausted(batch, failures)
      modifies this
      ensures history == old(history) + [Next(lease, now, eventId, fate)]
      ensures err.None? ==> At(lease, batchId, batch, Loop(i + 1, failures))
      ensures err == Some(LeaseLost) ==> At(lease, batchId, batch, Ended)
      ensures err.Some? && err.value != LeaseLost ==> At(lease, batchId, batch, Recording(i, failures + 1))
      ensures ItemOutcome(old(world).db, world.db, batchId, lease, batch, i, now, eventId, fate, err)
    {
      ItemOutcomeIs(old(history), world, lease, i, failures, now, eventId);
      var done := ItemTx(world.db, batchId, lease, batch, i, now, eventId);
      if fate == RolledBack {
        Proceed(lease, world.db, Recording(i, failures + 1));
        err := Some(ItemError(M.DatabaseFault));
      } else if done.Err? {
        Proceed(lease, world.db, if done.error == LeaseLost then Ended else Recording(i, failures + 1));
        err := Some(done.error);
      } else if fate == Unacknowledged {
        Proceed(lease, done.value, Recording(i, failures + 1), 1);
        err := Some(ItemError(M.DatabaseFault));
      } else {
        Proceed(lease, done.value, Loop(i + 1, failures));
        err := None;
      }
      Happened(Next(lease, now, eventId, fate));
    }

    /** Records a failure, in a transaction of its own. */
    method RecordFailure(batchId: Id, lease: Id, batch: Batch, i: nat, failures: nat, now: int, eventId: Id, fate: Fate)
      returns (err: Option<Error>)
      requires At(lease, batchId, batch, Recording(i, failures))
      modifies this
      ensures history == old(history) + [Next(lease, now, eventId, fate)]
      ensures At(lease, batchId, batch, if err.None? then Loop(i + 1, failures) else Ended)
      ensures fate == RolledBack || !Has(old(world).db, batchId, lease) ==> err.Some? && world.db == old(world).db
      ensures Has(old(world).db, batchId, lease) && fate != RolledBack ==>
                && i < |old(world).db.batches[batchId].items| && world.db.members == old(world).db.members
                && batchId in world.db.batches && world.db.batches == old(world).db.batches[batchId := world.db.batches[batchId]]
                && Noted(old(world).db.batches[batchId], world.db.batches[batchId], i,
                         if old(world).db.batches[batchId].items[i].outcome.None? then Some(Failed) else old(world).db.batches[batchId].items[i].outcome, now)
                && (err.None? <==> fate == Answered)
    {
      RunKeeps(history);
      TheRequest(world, lease);
      if batchId in world.db.batches && i < |world.db.batches[batchId].items| {
        RecordExactlyWhen(world.db, batchId, lease, i, now);
      }
      var done := RecordTx(world.db, batchId, lease, i, now);
      if done.Ok? && fate == Answered {
        Proceed(lease, done.value, Loop(i + 1, failures));
        err := None;
      } else {
        Proceed(lease, if done.Ok? && fate == Unacknowledged then done.value else world.db, Ended);
        err := Some(if done.Err? then done.error else ItemError(M.DatabaseFault));
      }
      Happened(Next(lease, now, eventId, fate));
    }

    /** One item, and the record of its failure when it fails: transactions k and k + 1 of the request. */
    method AttemptItem(batchId: Id, lease: Id, batch: Batch, i: nat, failures: nat, s: Surroundings, k: nat)
      returns (stop: Option<Error>, counted: nat)
      requires At(lease, batchId, batch, Loop(i, failures))
      requires i < |batch.items| && !Skips(batch.items[i]) && !Exhausted(batch, failures)
      requires Strangers(s.others(k), lease) && Strangers(s.others(k + 1), lease)
      modifies this
      ensures Valid() && old(history) <= history
      ensures stop.None? ==> At(lease, batchId, batch, Loop(i + 1, counted)) && failures <= counted <= failures + 1
      ensures stop.Some? ==> At(lease, batchId, batch, Ended)
      ensures Undisturbed(s) && Has(old(world).db, batchId, lease) ==> stop.None? && Has(world.db, batchId, lease)
    {
      Interleave(s.others(k), lease);
      var err := ExecuteItem(batchId, lease, batch, i, failures, s.clock(k), s.eventIds(k), s.fates(k));
      if err.None? || err.value == LeaseLost {
        return err, failures;
      }
      Interleave(s.others(k + 1), lease);
      stop := RecordFailure(batchId, lease, batch, i, failures + 1, s.clock(k + 1), s.eventIds(k + 1), s.fates(k + 1));
      counted := failures + 1;
    }

    /** The loop over the items, until none is left, the allowance is spent, or the request must stop. */
    method AttemptsItems(batchId: Id, lease: Id, batch: Batch, begun: nat, s: Surroundings)
      returns (stop: Option<Error>, i: nat, failures: nat, k: nat)
      requires At(lease, batchId, batch, Loop(0, begun)) && forall k :: Strangers(s.others(k), lease)
      modifies this
      ensures Valid() && old(history) <= history
      ensures stop.Some? ==> At(lease, batchId, batch, Ended)
      ensures stop.None? ==>
                && At(lease, batchId, batch, Loop(i, failures))
                && (i >= |batch.items| || (!Skips(batch.items[i]) && Exhausted(batch, failures)))
      ensures Undisturbed(s) && Has(old(world).db, batchId, lease) ==> stop.None? && Has(world.db, batchId, lease)
    {
      stop, i, failures, k := None, 0, begun, 1;
      while i < |batch.items|
        invariant 0 <= i <= |batch.items| && old(history) <= history && stop.None?
        invariant At(lease, batchId, batch, Loop(i, failures))
        invariant Undisturbed(s) && Has(old(world).db, batchId, lease) ==> Has(world.db, batchId, lease)
      {
        if Skips(batch.items[i]) {
          PassOver(batchId, lease, batch, i, failures);
          i := i + 1;
          continue;
        }
        if Exhausted(batch, failures) {
          break;
        }
        stop, failures := AttemptItem(batchId, lease, batch, i, failures, s, k);
        if stop.Some? {
          return;
        }
        k := k + 2;
        i := i + 1;
      }
    }

    /** Closes the batch, and reads it back. */
    method Completes(batchId: Id, lease: Id, batch: Batch, i: nat, failures: nat, now: int, eventId: Id, fate: Fate)
      returns (r: Result<Batch, Error>)
      requires At(lease, batchId, batch, Loop(i, failures))
      requires i >= |batch.items| || (!Skips(batch.items[i]) && Exhausted(batch, failures))
      modifies this
      ensures Valid() && history == old(history) + [Next(lease, now, eventId, fate)]
      ensures lease in world.requests && world.requests[lease].pc.Ended?
      ensures r.Ok? <==> Has(old(world).db, batchId, lease) && fate == Answered
      ensures Has(old(world).db, batchId, lease) && fate != RolledBack ==>
                && batchId in world.db.batches && Closed(old(world).db.batches[batchId], world.db.batches[batchId], now)
                && world.db == old(world).db.(batches := old(world).db.batches[batchId := world.db.batches[batchId]])
      ensures !Has(old(world).db, batchId, lease) || fate == RolledBack ==> world.db == old(world).db
      ensures r.Ok? ==>
                && batchId in world.db.batches && world.db.batches[batchId] == r.value
                && r.value.phase == Executed && r.value.lease == Some(lease)
    {
      CompleteExactlyWhen(world.db, batchId, lease, now);
      var done := CompleteTx(world.db, batchId, lease, now);
      if done.Ok? && fate == Answered {
        Proceed(lease, done.value, Ended);
        r := Ok(done.value.batches[batchId]);
      } else {
        Proceed(lease, if done.Ok? && fate == Unacknowledged then done.value else world.db, Ended);
        r := Err(if done.Err? then done.error else ItemError(M.DatabaseFault));
      }
      Happened(Next(lease, now, eventId, fate));
    }

    /**
     Commits a preview item by item, or resumes an execution whose request ended. Whatever ran in
     between and however its transactions ended, the whole is a run of the protocol, after which this
     request acts no more; a batch it returns is the stored one, every item with an outcome, executed
     under this request's lease or, for a claim adopted from a request that never answered, as it ended.
     */
    method ExecuteBatch(batchId: Id, tenant: Id, allowance: Option<int>, lease: Id, adopted: bool, s: Surroundings)
      returns (r: Result<Batch, Error>)
      requires Valid() && lease !in world.requests && forall k :: Strangers(s.others(k), lease)
      modifies this
      ensures Valid() && old(history) <= history
      ensures lease in world.requests ==> world.requests[lease].pc.Ended?
      ensures r.Ok? ==>
                && batchId in world.db.batches && world.db.batches[batchId] == r.value
                && r.value.phase == Executed && (r.value.lease == Some(lease) || (adopted && lease !in world.requests))
                && CountSucceeded(r.value.items) + CountFailed(r.value.items)
                   + CountNotAttempted(r.value.items, ErrorAllowance) == r.value.wouldChange
      ensures Undisturbed(s) && Takes(old(world).db, batchId, tenant, s.clock(0), allowance) ==> r.Ok? && r.value.lease == Some(lease)
      ensures s.others(0) == [] && !Takes(old(world).db, batchId, tenant, s.clock(0), allowance) ==>
                && world == old(world)
                && (r.Err? ==> BeginRefusedAs(old(world).db, batchId, tenant, s.clock(0), allowance, r.error))
                && (r.Ok? <==> adopted && AskedFor(old(world).db, batchId, tenant, allowance) && old(world).db.batches[batchId].phase == Executed)
    {
      r := Executes(batchId, tenant, allowance, lease, adopted, s);
      if r.Ok? {
        ExecutedCountsConserved(history, batchId);
      }
    }

    method Executes(batchId: Id, tenant: Id, allowance: Option<int>, lease: Id, adopted: bool, s: Surroundings)
      returns (r: Result<Batch, Error>)
      requires Valid() && lease !in world.requests && forall k :: Strangers(s.others(k), lease)
      modifies this
      ensures Valid() && old(history) <= history
      ensures lease in world.requests ==> world.requests[lease].pc.Ended?
      ensures r.Ok? ==>
                && batchId in world.db.batches && world.db.batches[batchId] == r.value
                && r.value.phase == Executed && (r.value.lease == Some(lease) || (adopted && lease !in world.requests))
      ensures Undisturbed(s) && Takes(old(world).db, batchId, tenant, s.clock(0), allowance) ==> r.Ok? && r.value.lease == Some(lease)
      ensures s.others(0) == [] && !Takes(old(world).db, batchId, tenant, s.clock(0), allowance) ==>
                && world == old(world)
                && (r.Err? ==> BeginRefusedAs(old(world).db, batchId, tenant, s.clock(0), allowance, r.error))
                && (r.Ok? <==> adopted && AskedFor(old(world).db, batchId, tenant, allowance) && old(world).db.batches[batchId].phase == Executed)
    {
      Interleave(s.others(0), lease);
      var begun, failures := Begins(batchId, tenant, lease, s.clock(0), allowance);
      if begun.Err? {
        return if begun.error == NotPreviewed && adopted then Ok(world.db.batches[batchId]) else Err(begun.error);
      }
      var stop, i, counted, k := AttemptsItems(batchId, lease, begun.value, failures, s);
      if stop.Some? {
        return Err(stop.value);
      }
      Interleave(s.others(k), lease);
      r := Completes(batchId, lease, begun.value, i, counted, s.clock(k), s.eventIds(k), s.fates(k));
    }
  }

  lemma {:induction false} PreviewStops(members: M.Store, tenant: Id, action: M.Action, reason: string, ids: seq<Id>, k: nat,
                                        faults: set<M.Error>)
    requires k <= |ids| && PreviewItems(members, tenant, action, reason, ids[..k], faults).Err?
    ensures PreviewItems(members, tenant, action, reason, ids, faults)
            == PreviewItems(members, tenant, action, reason, ids[..k], faults)
  {
    var n := |ids|;
    if k == n {
      assert ids[..k] == ids;
    } else {
      assert ids[..n - 1][..k] == ids[..k];
      PreviewStops(members, tenant, action, reason, ids[..n - 1], k, faults);
    }
  }
}
