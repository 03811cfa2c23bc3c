/** What a maintainer may rely on, over every run of the batch protocol. */
module BatchResults {
  import opened Base
  import opened Projection
  import opened Batch
  import opened BatchInvariant
  import opened BatchSteps
  import M = Membership

  // ----- each item's transition commits at most once

  /** No two committed transitions, over all requests, takeovers and crashes, are the same item's. */
  lemma TransitionsOnce(steps: seq<Step>, i: nat, j: nat)
    requires i < j < |Exec(START, steps).db.members.events|
    ensures
      var events := Exec(START, steps).db.members.events;
      events[i].body.origin.BatchItem? ==> events[i].body.origin != events[j].body.origin
  {
    var w := Exec(START, steps);
    RunKeeps(steps);
    TheStore(w);
    M.Unfold(w.db.members);
    var a, b := w.db.members.events[i], w.db.members.events[j];
    assert EventHasOutcome(w.db.batches, a) && EventHasOutcome(w.db.batches, b);
  }

  /**
   An item is `succeeded` exactly when its own transition committed: one event, at the version read
   plus one, carrying the status the preview promised, and named by the outcome.
   */
  lemma SucceededExactlyWhenCommitted(steps: seq<Step>, id: Id, i: nat)
    requires id in Exec(START, steps).db.batches && i < |Exec(START, steps).db.batches[id].items|
    ensures
      var db := Exec(START, steps).db;
      var item := db.batches[id].items[i];
      && ((item.outcome.Some? && item.outcome.value.Succeeded?)
          <==> exists e :: e in db.members.events && e.body.origin == M.BatchItem(id, i))
      && forall e :: e in db.members.events && e.body.origin == M.BatchItem(id, i) ==>
           && item.outcome == Some(Succeeded(e.body.eventId, e.version))
           && e.key == item.membership
           && item.read.Some? && e.version == item.read.value.version + 1
           && item.resulting == Some(e.body.row.status)
           && M.Resolve(db.batches[id].action, item.read.value.status) == Ok(e.body.row.status)
  {
    var w := Exec(START, steps);
    RunKeeps(steps);
    TheStore(w);
    TheBatch(w, id);
    OwnEvent(w.db, id, i);
  }

  lemma OwnEvent(db: DB, id: Id, i: nat)
    requires M.Valid(db.members) && Linked(db) && id in db.batches && i < |db.batches[id].items|
    ensures
      var item := db.batches[id].items[i];
      && ((item.outcome.Some? && item.outcome.value.Succeeded?)
          <==> exists e :: e in db.members.events && e.body.origin == M.BatchItem(id, i))
      && forall e :: e in db.members.events && e.body.origin == M.BatchItem(id, i) ==>
           item.outcome == Some(Succeeded(e.body.eventId, e.version)) && Own(db.members.events, id, db.batches[id], i, e)
  {
    var events, b := db.members.events, db.batches[id];
    assert OutcomeHasEvent(events, id, b, i);
    forall e | e in events && e.body.origin == M.BatchItem(id, i)
      ensures b.items[i].outcome == Some(Succeeded(e.body.eventId, e.version)) && Own(events, id, b, i, e)
    {
      assert EventHasOutcome(db.batches, e);
      var x :| Own(events, id, b, i, x) && b.items[i].outcome.value == Succeeded(x.body.eventId, x.version);
      SameEvent(db.members, e, x);
    }
  }

  lemma SameEvent(s: M.Store, a: Record<M.Body>, b: Record<M.Body>)
    requires M.Valid(s) && a in s.events && b in s.events && a.body.eventId == b.body.eventId
    ensures a == b
  {
    M.Unfold(s);
    var i :| 0 <= i < |s.events| && s.events[i] == a;
    var j :| 0 <= j < |s.events| && s.events[j] == b;
  }

  // ----- an outcome is final

  ghost predicate OutcomesKept(db: DB, db': DB) {
    forall id :: id in db.batches ==>
      && id in db'.batches
      && SameBatch(db'.batches[id], db.batches[id])
      && forall i :: 0 <= i < |db.batches[id].items| && db.batches[id].items[i].outcome.Some? ==>
           db'.batches[id].items[i].outcome == db.batches[id].items[i].outcome
  }

  /** One batch row is rewritten, in outcomes that were not yet set. */
  lemma RowKeepsOutcomes(db: DB, db': DB, id: Id)
    requires id in db.batches && id in db'.batches && db'.batches == db.batches[id := db'.batches[id]]
    requires SameBatch(db'.batches[id], db.batches[id])
    requires forall i :: 0 <= i < |db.batches[id].items| && db.batches[id].items[i].outcome.Some? ==>
               db'.batches[id].items[i].outcome == db.batches[id].items[i].outcome
    ensures OutcomesKept(db, db')
  {
  }

  lemma ItemKeepsOutcomes(db: DB, batchId: Id, lease: Id, loaded: Batch, i: nat, now: int, eventId: Id, db': DB)
    requires i < |loaded.items| && loaded.items[i].read.Some? && ItemTx(db, batchId, lease, loaded, i, now, eventId) == Ok(db')
    ensures OutcomesKept(db, db')
  {
    RowKeepsOutcomes(db, db', batchId);
  }

  lemma RecordKeepsOutcomes(db: DB, batchId: Id, lease: Id, i: nat, now: int, db': DB)
    requires RecordTx(db, batchId, lease, i, now) == Ok(db')
    ensures OutcomesKept(db, db')
  {
    RowKeepsOutcomes(db, db', batchId);
  }

  lemma CompleteKeepsOutcomes(db: DB, batchId: Id, lease: Id, now: int, db': DB)
    requires CompleteTx(db, batchId, lease, now) == Ok(db')
    ensures OutcomesKept(db, db')
  {
    RowKeepsOutcomes(db, db', batchId);
  }

  lemma NextKeepsOutcomes(db: DB, lease: Id, r: Request, now: int, eventId: Id, fate: Fate)
    ensures OutcomesKept(db, NextOf(db, lease, r, now, eventId, fate).0)
  {
    var db' := NextOf(db, lease, r, now, eventId, fate).0;
    if db' != db {
      if r.pc.Recording? {
        RecordKeepsOutcomes(db, r.batchId, lease, r.pc.i, now, db');
      } else if r.pc.i >= |r.batch.items| || Exhausted(r.batch, r.pc.failures) {
        CompleteKeepsOutcomes(db, r.batchId, lease, now, db');
      } else {
        ItemKeepsOutcomes(db, r.batchId, lease, r.batch, r.pc.i, now, eventId, db');
      }
    }
  }

  lemma StepKeepsOutcomes(w: World, s: Step)
    ensures OutcomesKept(w.db, Take(w, s).db)
  {
    if s.Next? && s.lease in w.requests {
      NextKeepsOutcomes(w.db, s.lease, w.requests[s.lease], s.now, s.eventId, s.fate);
    }
  }

  lemma OutcomesKeptTransitive(a: DB, b: DB, c: DB)
    requires OutcomesKept(a, b) && OutcomesKept(b, c)
    ensures OutcomesKept(a, c)
  {
    forall id | id in a.batches ensures id in c.batches && SameBatch(c.batches[id], a.batches[id]) {
      forall i | 0 <= i < |a.batches[id].items| ensures SameItem(c.batches[id].items[i], a.batches[id].items[i]) {
        assert SameItem(b.batches[id].items[i], a.batches[id].items[i]);
        assert SameItem(c.batches[id].items[i], b.batches[id].items[i]);
      }
    }
  }

  /** An outcome, once written, is the outcome in every later state; what the preview stored never changes. */
  lemma {:induction false} OutcomesFinal(w: World, more: seq<Step>)
    ensures OutcomesKept(w.db, Exec(w, more).db)
  {
    if more == [] {
    } else {
      var mid := Exec(w, more[..|more| - 1]);
      OutcomesFinal(w, more[..|more| - 1]);
      StepKeepsOutcomes(mid, more[|more| - 1]);
      OutcomesKeptTransitive(w.db, mid.db, Take(mid, more[|more| - 1]).db);
    }
  }

  // ----- a request that lost the lease commits nothing more

  ghost predicate Lost(w: World, lease: Id) {
    lease in w.requests && !HoldsLease(w.db, w.requests[lease].batchId, lease)
  }

  lemma LostStep(w: World, s: Step, lease: Id)
    requires Lost(w, lease)
    ensures Lost(Take(w, s), lease)
    ensures s.Next? && s.lease == lease ==> Take(w, s).db == w.db
  {
  }

  /** Whatever runs in between, the request's own later steps leave the whole database as it is. */
  lemma {:induction false} LostForGood(w: World, lease: Id, more: seq<Step>, now: int, eventId: Id, fate: Fate)
    requires Lost(w, lease)
    ensures Lost(Exec(w, more), lease)
    ensures Take(Exec(w, more), Next(lease, now, eventId, fate)).db == Exec(w, more).db
  {
    if more == [] {
      LostStep(w, Next(lease, now, eventId, fate), lease);
    } else {
      var mid := Exec(w, more[..|more| - 1]);
      LostForGood(w, lease, more[..|more| - 1], now, eventId, fate);
      LostStep(mid, more[|more| - 1], lease);
      LostStep(Take(mid, more[|more| - 1]), Next(lease, now, eventId, fate), lease);
    }
  }

  /** A takeover, at any clock reading that admits one, takes the lease from every other request of the batch. */
  lemma TakeoverFencesOthers(w: World, batchId: Id, tenant: Id, lease: Id, now: int, allowance: Option<int>, other: Id)
    requires lease !in w.requests && BeginTx(w.db, batchId, tenant, lease, now, allowance).Ok?
    requires other in w.requests && w.requests[other].batchId == batchId
    ensures
      var w' := Take(w, Begin(batchId, tenant, lease, now, allowance));
      HoldsLease(w'.db, batchId, lease) && Lost(w', other)
  {
  }

  // ----- order, allowance and counts

  /**
   In every reachable state, whatever commits went unacknowledged: the attempted items are a prefix
   of the items that would change, in position order, and at most one failure more than tolerated
   is recorded.
   */
  lemma AttemptedInOrder(steps: seq<Step>, id: Id)
    requires id in Exec(START, steps).db.batches
    ensures
      var b := Exec(START, steps).db.batches[id];
      && Prefix(b.items)
      && (b.failOnErrors.Some? ==> CountFailed(b.items) <= b.failOnErrors.value + 1)
      && (forall i :: 0 <= i < |b.items| && Attempted(b.items[i]) ==> b.items[i].refusal.None?)
  {
    var w := Exec(START, steps);
    RunKeeps(steps);
    TheBatch(w, id);
    if w.db.batches[id].phase == Previewed {
      CountFailedNone(w.db.batches[id].items);
      PreviewedAllowance(steps, id);
    }
  }

  /** A batch that has not started tolerates nothing yet. */
  lemma {:induction false} PreviewedAllowance(steps: seq<Step>, id: Id)
    requires id in Exec(START, steps).db.batches && Exec(START, steps).db.batches[id].phase == Previewed
    ensures Exec(START, steps).db.batches[id].failOnErrors.None?
  {
    if steps != [] {
      var w := Exec(START, steps[..|steps| - 1]);
      if id in w.db.batches && w.db.batches[id].phase == Previewed {
        PreviewedAllowance(steps[..|steps| - 1], id);
      }
    }
  }

  /**
   While a request holds the lease, what it loaded and its place in the loop describe the stored rows,
   and its count of failures is the recorded ones and the successes it did not hear of.
   */
  lemma HolderTracksRows(steps: seq<Step>, lease: Id)
    requires
      var w := Exec(START, steps);
      lease in w.requests && HoldsLease(w.db, w.requests[lease].batchId, lease) && !w.requests[lease].pc.Ended?
    ensures
      var w := Exec(START, steps);
      var r := w.requests[lease];
      var b := w.db.batches[r.batchId];
      var open := r.pc.Recording? && r.pc.i < |b.items| && b.items[r.pc.i].outcome.None?;
      && SameBatch(r.batch, b)
      && r.pc.failures == CountFailed(b.items) + r.unheard + (if open then 1 else 0)
      && (forall j :: 0 <= j < |b.items| && j < r.pc.i && b.items[j].refusal.None? ==> Attempted(b.items[j]))
      && (forall j :: r.pc.i < j < |b.items| ==> b.items[j] == r.batch.items[j])
      && (r.pc.Loop? && r.pc.i < |b.items| ==> b.items[r.pc.i] == r.batch.items[r.pc.i])
  {
    var w := Exec(START, steps);
    RunKeeps(steps);
    TheRequest(w, lease);
    var r := w.requests[lease];
    var b := w.db.batches[r.batchId];
    forall j | r.pc.i <= j < |b.items| ensures SameItem(r.batch.items[j], b.items[j]) {
    }
  }

  /**
   An `error_allowance` outcome means that the request which completed the batch had counted one
   failure more than tolerated: recorded failures and successes it did not hear of. So the recorded
   failures reached the tolerance exactly when it had heard of every item it committed.
   */
  lemma AllowanceExceeded(steps: seq<Step>, id: Id, i: nat)
    requires id in Exec(START, steps).db.batches && i < |Exec(START, steps).db.batches[id].items|
    requires Exec(START, steps).db.batches[id].items[i].outcome == Some(NotAttempted(ErrorAllowance))
    ensures
      var w := Exec(START, steps);
      var b := w.db.batches[id];
      && b.phase == Executed && b.failOnErrors.Some? && b.lease.Some? && b.lease.value in w.requests
      && w.requests[b.lease.value].batchId == id
      && CountFailed(b.items) + w.requests[b.lease.value].unheard == b.failOnErrors.value + 1
      && (CountFailed(b.items) == b.failOnErrors.value + 1 <==> w.requests[b.lease.value].unheard == 0)
  {
    RunKeeps(steps);
    TheBatch(Exec(START, steps), id);
  }

  /** How many of a run's steps committed an item of the request and went unheard. */
  function UnheardIn(steps: seq<Step>, lease: Id): nat {
    if steps == [] then 0
    else
      var w := Exec(START, steps[..|steps| - 1]);
      var s := steps[|steps| - 1];
      UnheardIn(steps[..|steps| - 1], lease)
      + if s.Next? && s.lease == lease && lease in w.requests
           && CommitsUnheard(w.db, lease, w.requests[lease], s.now, s.eventId, s.fate) then 1 else 0
  }

  /** The annotation counts those steps; a request all of whose own commits are acknowledged has none. */
  lemma {:induction false} UnheardCounted(steps: seq<Step>, lease: Id)
    ensures lease in Exec(START, steps).requests ==> Exec(START, steps).requests[lease].unheard == UnheardIn(steps, lease)
    ensures lease !in Exec(START, steps).requests ==> UnheardIn(steps, lease) == 0
    ensures (forall k :: 0 <= k < |steps| && steps[k].Next? && steps[k].lease == lease ==> steps[k].fate != Unacknowledged)
            ==> UnheardIn(steps, lease) == 0
  {
    if steps != [] {
      var n := |steps| - 1;
      UnheardCounted(steps[..n], lease);
      assert forall k :: 0 <= k < n ==> steps[..n][k] == steps[k];
    }
  }

  function CountSucceeded(items: seq<Item>): nat {
    if items == [] then 0
    else
      var last := items[|items| - 1].outcome;
      CountSucceeded(items[..|items| - 1]) + if last.Some? && last.value.Succeeded? then 1 else 0
  }

  function CountNotAttempted(items: seq<Item>, reason: Reason): nat {
    if items == [] then 0
    else CountNotAttempted(items[..|items| - 1], reason)
         + if items[|items| - 1].outcome == Some(NotAttempted(reason)) then 1 else 0
  }

  lemma {:induction false} CountsAdd(items: seq<Item>)
    requires forall i :: 0 <= i < |items| ==>
               && items[i].outcome.Some?
               && (items[i].refusal.Some? <==> items[i].outcome.value == NotAttempted(RefusedAtPreview))
    ensures CountNotAttempted(items, RefusedAtPreview) == CountRefused(items)
    ensures CountSucceeded(items) + CountFailed(items) + CountNotAttempted(items, ErrorAllowance) + CountRefused(items) == |items|
  {
    if items == [] {
    } else {
      CountsAdd(items[..|items| - 1]);
      var last := items[|items| - 1].outcome.value;
      assert last.NotAttempted? ==> last.reason == RefusedAtPreview || last.reason == ErrorAllowance;
    }
  }

  /** An executed batch leaves no item without an outcome, and its counts are the preview's. */
  lemma ExecutedCountsConserved(steps: seq<Step>, id: Id)
    requires id in Exec(START, steps).db.batches
    ensures
      var b := Exec(START, steps).db.batches[id];
      && b.wouldChange + b.wouldNotChange == |b.items|
      && b.wouldNotChange == CountRefused(b.items)
      && (b.phase == Executed ==>
            && (forall i :: 0 <= i < |b.items| ==> b.items[i].outcome.Some?)
            && CountNotAttempted(b.items, RefusedAtPreview) == b.wouldNotChange
            && CountSucceeded(b.items) + CountFailed(b.items) + CountNotAttempted(b.items, ErrorAllowance) == b.wouldChange)
  {
    RunKeeps(steps);
    TheBatch(Exec(START, steps), id);
    var b := Exec(START, steps).db.batches[id];
    if b.phase == Executed {
      CountsAdd(b.items);
    }
  }

  // ----- what a preview promises

  /** The item's transition as its request would run it now. */
  function ItemTransition(db: DB, b: Batch, i: nat, eventId: Id, origin: M.Origin): Result<M.Store, M.Error>
    requires i < |b.items| && b.items[i].read.Some?
  {
    M.TransitionWithin(db.members, b.tenant, b.action,
                       M.Command(b.items[i].membership, b.items[i].read.value.version, b.reason), eventId, origin)
  }

  /**
   A promised item is refused at execution exactly when the Membership moved past the version read,
   or when restoring it would make a second active Membership of the same slot: the preview runs the
   state machine and the version check, and not membership_active_unique.
   */
  lemma PromiseKeptExactlyWhen(steps: seq<Step>, id: Id, i: nat, eventId: Id, origin: M.Origin)
    requires
      var db := Exec(START, steps).db;
      && id in db.batches && i < |db.batches[id].items| && db.batches[id].items[i].refusal.None?
      && !M.EventExists(db.members, eventId)
    ensures
      var db := Exec(START, steps).db;
      var b := db.batches[id];
      var item := b.items[i];
      && item.read.Some? && item.membership in db.members.rows
      && (ItemTransition(db, b, i, eventId, origin).Ok? <==>
            && db.members.rows[item.membership].version == item.read.value.version
            && !(b.action == M.Restore
                 && M.SlotTaken(db.members.rows, item.membership, db.members.rows[item.membership].(status := M.Active))))
  {
    var w := Exec(START, steps);
    RunKeeps(steps);
    TheStore(w);
    TheBatch(w, id);
    PromiseHere(w.db, id, i, eventId, origin);
  }

  lemma PromiseHere(db: DB, id: Id, i: nat, eventId: Id, origin: M.Origin)
    requires M.Valid(db.members) && id in db.batches && Shape(db.batches[id])
    requires ReadPublished(db.members.events, db.batches[id])
    requires i < |db.batches[id].items| && db.batches[id].items[i].refusal.None? && !M.EventExists(db.members, eventId)
    ensures
      var b := db.batches[id];
      var item := b.items[i];
      && item.read.Some? && item.membership in db.members.rows
      && (ItemTransition(db, b, i, eventId, origin).Ok? <==>
            && db.members.rows[item.membership].version == item.read.value.version
            && !(b.action == M.Restore
                 && M.SlotTaken(db.members.rows, item.membership, db.members.rows[item.membership].(status := M.Active))))
  {
    var b := db.batches[id];
    var item := b.items[i];
    var x :| ReadAt(db.members.events, b.tenant, item, x);
    RowOfEvent(db.members, x);
    M.VersionPositive(db.members, item.membership);
    if db.members.rows[item.membership].version == item.read.value.version {
      var y := M.CurrentEvent(db.members, item.membership);
      M.OneEventPerVersion(db.members, x, y);
      var row := db.members.rows[item.membership];
      var next := row.(status := M.Resolve(b.action, row.status).value, version := row.version + 1);
      assert M.Slot(next) == M.Slot(row.(status := M.Active));
    }
  }

  lemma RowOfEvent(s: M.Store, e: Record<M.Body>)
    requires M.Valid(s) && e in s.events
    ensures e.key in s.rows && e.version <= s.rows[e.key].version
  {
    M.Unfold(s);
  }
}
