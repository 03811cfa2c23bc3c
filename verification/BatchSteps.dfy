/** Every transaction of the batch protocol keeps the invariant. */
module BatchSteps {
  import opened Base
  import opened Projection
  import opened Batch
  import opened BatchInvariant
  import M = Membership

  // ----- the link between outcomes and events

  /** A change of outcomes that touches no success keeps the link. */
  lemma LinkedOutcomes(db: DB, db': DB, id: Id)
    requires Linked(db) && id in db.batches
    requires db'.members == db.members && id in db'.batches && db'.batches == db.batches[id := db'.batches[id]]
    requires SameBatch(db'.batches[id], db.batches[id])
    requires forall i :: 0 <= i < |db.batches[id].items| ==>
               db'.batches[id].items[i].outcome == db.batches[id].items[i].outcome
               || (db.batches[id].items[i].outcome.None? && !db'.batches[id].items[i].outcome.value.Succeeded?)
    ensures Linked(db')
  {
    var b, b' := db.batches[id], db'.batches[id];
    var events := db.members.events;
    forall i | 0 <= i < |b'.items| ensures OutcomeHasEvent(events, id, b', i) {
      assert SameItem(b'.items[i], b.items[i]) && OutcomeHasEvent(events, id, b, i);
      if b'.items[i].outcome.Some? && b'.items[i].outcome.value.Succeeded? {
        var e :| Own(events, id, b, i, e) && b.items[i].outcome.value == Succeeded(e.body.eventId, e.version);
        assert Own(events, id, b', i, e);
      }
    }
    ReadKept(events, events, b, b');
    forall e | e in events ensures EventHasOutcome(db'.batches, e) {
      assert EventHasOutcome(db.batches, e);
    }
  }

  lemma ReadKept(events: seq<Record<M.Body>>, events': seq<Record<M.Body>>, b: Batch, b': Batch)
    requires ReadPublished(events, b) && SameBatch(b', b) && events <= events'
    ensures ReadPublished(events', b')
  {
    forall i | 0 <= i < |b'.items| && b'.items[i].read.Some? ensures exists e :: ReadAt(events', b'.tenant, b'.items[i], e) {
      assert SameItem(b'.items[i], b.items[i]);
      var e :| ReadAt(events, b.tenant, b.items[i], e);
      assert ReadAt(events', b'.tenant, b'.items[i], e);
    }
  }

  lemma OutcomeEventKept(events: seq<Record<M.Body>>, events': seq<Record<M.Body>>, id: Id, b: Batch, i: nat)
    requires i < |b.items| && OutcomeHasEvent(events, id, b, i) && events <= events'
    ensures OutcomeHasEvent(events', id, b, i)
  {
    if b.items[i].outcome.Some? && b.items[i].outcome.value.Succeeded? {
      var e :| Own(events, id, b, i, e) && b.items[i].outcome.value == Succeeded(e.body.eventId, e.version);
      assert Own(events', id, b, i, e);
    }
  }

  /** More events, none of them an item's, keep the link. */
  lemma LinkedOthers(db: DB, members': M.Store)
    requires Linked(db) && db.members.events <= members'.events
    requires forall i :: |db.members.events| <= i < |members'.events| ==> members'.events[i].body.origin == M.Direct
    ensures Linked(db.(members := members'))
  {
    var events, events' := db.members.events, members'.events;
    forall id | id in db.batches ensures ReadPublished(events', db.batches[id]) {
      ReadKept(events, events', db.batches[id], db.batches[id]);
    }
    forall id, i | id in db.batches && 0 <= i < |db.batches[id].items|
      ensures OutcomeHasEvent(events', id, db.batches[id], i)
    {
      OutcomeEventKept(events, events', id, db.batches[id], i);
    }
    forall e | e in events' ensures EventHasOutcome(db.batches, e) {
      var k :| 0 <= k < |events'| && events'[k] == e;
      if k < |events| {
        assert events[k] in events;
      }
    }
  }

  /** The version the item's transition was held to is the version the preview read, so its status is too. */
  lemma ItemEvent(db: DB, id: Id, b: Batch, loaded: Batch, i: nat, eventId: Id, members': M.Store)
    requires M.Valid(db.members) && ReadPublished(db.members.events, b) && Shape(b)
    requires SameBatch(loaded, b) && i < |b.items| && b.items[i].refusal.None? && loaded.items[i].read.Some?
    requires M.TransitionWithin(db.members, loaded.tenant, loaded.action,
                                M.Command(loaded.items[i].membership, loaded.items[i].read.value.version, loaded.reason),
                                eventId, M.BatchItem(id, i)) == Ok(members')
    ensures |members'.events| == |db.members.events| + 1 && db.members.events <= members'.events
    ensures Own(members'.events, id, b, i, members'.events[|db.members.events|])
    ensures members'.events[|db.members.events|].body.eventId == eventId
    ensures M.Valid(members')
  {
    assert SameItem(loaded.items[i], b.items[i]);
    var item := b.items[i];
    var cmd := M.Command(item.membership, item.read.value.version, loaded.reason);
    M.TransitionWrites(db.members, loaded.tenant, loaded.action, cmd, eventId, M.BatchItem(id, i));
    M.TransitionKeeps(db.members, loaded.tenant, loaded.action, cmd, eventId, M.BatchItem(id, i), members');
    var x :| ReadAt(db.members.events, b.tenant, item, x);
    var y := M.CurrentEvent(db.members, item.membership);
    M.OneEventPerVersion(db.members, x, y);
  }

  /** The item's event and its outcome commit together. */
  lemma LinkedSuccess(db: DB, db': DB, id: Id, i: nat, e: Record<M.Body>)
    requires Linked(db) && id in db.batches && i < |db.batches[id].items| && db.batches[id].items[i].outcome.None?
    requires db'.members.events == db.members.events + [e]
    requires id in db'.batches && db'.batches == db.batches[id := db'.batches[id]]
    requires db'.batches[id].items ==
             db.batches[id].items[i := db.batches[id].items[i].(outcome := Some(Succeeded(e.body.eventId, e.version)))]
    requires SameBatch(db'.batches[id], db.batches[id])
    requires Own(db'.members.events, id, db.batches[id], i, e)
    ensures Linked(db')
  {
    var b, b' := db.batches[id], db'.batches[id];
    var events, events' := db.members.events, db'.members.events;
    forall k | k in db'.batches ensures ReadPublished(events', db'.batches[k]) {
      ReadKept(events, events', db.batches[k], db'.batches[k]);
    }
    forall k, j | k in db'.batches && 0 <= j < |db'.batches[k].items|
      ensures OutcomeHasEvent(events', k, db'.batches[k], j)
    {
      if k == id && j == i {
        assert Own(events', id, b', i, e);
      } else {
        assert db'.batches[k].items[j] == db.batches[k].items[j];
        assert OutcomeHasEvent(events, k, db.batches[k], j);
        OutcomeEventKept(events, events', k, db.batches[k], j);
        OutcomeHere(events', k, db.batches[k], db'.batches[k], j);
      }
    }
    forall x | x in events' ensures EventHasOutcome(db'.batches, x) {
      if x in events {
        assert EventHasOutcome(db.batches, x);
      }
    }
  }

  lemma OutcomeHere(events: seq<Record<M.Body>>, id: Id, b: Batch, b': Batch, i: nat)
    requires i < |b.items| && i < |b'.items| && b.items[i] == b'.items[i] && OutcomeHasEvent(events, id, b, i)
    ensures OutcomeHasEvent(events, id, b', i)
  {
    if b.items[i].outcome.Some? && b.items[i].outcome.value.Succeeded? {
      var e :| Own(events, id, b, i, e) && b.items[i].outcome.value == Succeeded(e.body.eventId, e.version);
      assert Own(events, id, b', i, e);
    }
  }

  // ----- putting one changed batch back

  /** One batch and the request acting on it changed, and every other row stands. */
  lemma Reassembled(w: World, w': World, id: Id, lease: Id)
    requires Inv(w) && id in w.db.batches && id in w'.db.batches && lease in w'.requests
    requires w'.db.batches == w.db.batches[id := w'.db.batches[id]]
    requires w'.requests == w.requests[lease := w'.requests[lease]]
    requires M.Valid(w'.db.members) && Linked(w'.db)
    requires SameBatch(w'.db.batches[id], w.db.batches[id]) && w'.db.batches[id].phase != Previewed
    requires Shape(w'.db.batches[id]) && Progress(w'.db.batches[id])
    requires w'.db.batches[id].lease == Some(lease)
    requires w'.requests[lease].batchId == id && (lease in w.requests ==> w.requests[lease].batchId == id)
    requires w'.db.batches[id].phase == Executed ==> Stopped(w'.db.batches[id], w'.requests[lease].unheard)
    requires RequestOk(w', lease)
    ensures Inv(w')
  {
    forall l | l in w'.requests ensures RequestOk(w', l) {
      if l != lease {
        TheRequest(w, l);
        if w.requests[l].batchId == id {
          SameBatchTransitive(w.requests[l].batch, w.db.batches[id], w'.db.batches[id]);
        }
      }
    }
    forall k | k in w'.db.batches ensures BatchOk(w', k) {
      TheBatch(w, k);
    }
    Fold(w');
  }

  // ----- each transaction

  /** The holder's next item has no outcome yet, and nothing after it has been attempted. */
  lemma OpenItem(b: Batch, r: Request, i: nat, f: nat)
    requires Shape(b) && Progress(b) && b.phase == Executing && SameBatch(r.batch, b)
    requires r.pc == Loop(i, f) && Tracks(b, r) && i < |b.items| && !Skips(r.batch.items[i])
    ensures b.items[i].outcome.None? && b.items[i].refusal.None? && r.batch.items[i].read.Some?
    ensures forall j :: i < j < |b.items| ==> !Attempted(b.items[j])
  {
    assert SameItem(r.batch.items[i], b.items[i]);
  }

  /** Settling item i as attempted keeps the batch in order, when everything before it is attempted. */
  lemma Attempting(b: Batch, i: nat, outcome: Outcome, now: int)
    requires Shape(b) && Progress(b) && b.phase == Executing && i < |b.items|
    requires b.items[i].outcome.None? && b.items[i].refusal.None? && !outcome.NotAttempted?
    requires forall j :: 0 <= j < i && b.items[j].refusal.None? ==> Attempted(b.items[j])
    requires outcome == Failed ==> b.failOnErrors.Some? ==> CountFailed(b.items) + 1 <= b.failOnErrors.value + 1
    ensures
      var b' := SetItem(b, i, outcome, now);
      && SameBatch(b', b) && Shape(b') && Progress(b')
      && CountFailed(b'.items) == CountFailed(b.items) + if outcome == Failed then 1 else 0
  {
    var b' := SetItem(b, i, outcome, now);
    CountFailedUpdate(b.items, i, b.items[i].(outcome := Some(outcome)));
    ShapeKept(b, b');
  }

  /** An item's transaction under the lease, seen from its own batch. */
  lemma ItemHere(db: DB, id: Id, r: Request, lease: Id, i: nat, f: nat, now: int, eventId: Id, db': DB)
    requires M.Valid(db.members) && Linked(db) && id in db.batches && r.batchId == id
    requires Shape(db.batches[id]) && Progress(db.batches[id]) && SameBatch(r.batch, db.batches[id])
    requires HoldsLease(db, id, lease) && r.pc == Loop(i, f) && Tracks(db.batches[id], r)
    requires i < |r.batch.items| && !Skips(r.batch.items[i])
    requires ItemTx(db, id, lease, r.batch, i, now, eventId) == Ok(db')
    ensures id in db'.batches && db'.batches == db.batches[id := db'.batches[id]]
    ensures
      var b := db.batches[id];
      && b.items[i].outcome.None? && b.items[i].refusal.None? && r.batch.items[i].read.Some?
      && db'.batches[id] == SetItem(b, i, Succeeded(eventId, r.batch.items[i].read.value.version + 1), now)
    ensures M.Valid(db'.members) && Linked(db')
  {
    var b := db.batches[id];
    OpenItem(b, r, i, f);
    ItemEvent(db, id, b, r.batch, i, eventId, db'.members);
    var e := db'.members.events[|db.members.events|];
    assert db'.members.events == db.members.events + [e];
    assert SameItem(r.batch.items[i], b.items[i]);
    LinkedSuccess(db, db', id, i, e);
  }

  /** After item i is attempted the holder tracks the batch from the next item. */
  lemma TracksAttempt(b: Batch, r: Request, i: nat, f: nat, outcome: Outcome, now: int, r': Request)
    requires Shape(b) && Progress(b) && b.phase == Executing && SameBatch(r.batch, b)
    requires i < |b.items| && b.items[i].outcome.None? && b.items[i].refusal.None? && Tracks(b, r)
    requires
      || (r.pc == Loop(i, f) && outcome.Succeeded? && r' == r.(pc := Loop(i + 1, f)))
      || (r.pc == Loop(i, f) && outcome.Succeeded? && !Exhausted(r.batch, f) && r' == r.(pc := Recording(i, f + 1), unheard := r.unheard + 1))
      || (r.pc == Recording(i, f) && outcome == Failed && r' == r.(pc := Loop(i + 1, f)))
      || (r.pc == Recording(i, f) && outcome == Failed && r' == r.(pc := Ended))
    ensures
      var b' := SetItem(b, i, outcome, now);
      && SameBatch(b', b) && Shape(b') && Progress(b')
      && SameBatch(r'.batch, b') && Tracks(b', r')
  {
    Attempting(b, i, outcome, now);
    SameBatchTransitive(r.batch, b, SetItem(b, i, outcome, now));
  }

  lemma ItemCommits(w: World, lease: Id, i: nat, f: nat, now: int, eventId: Id, db': DB, r': Request, w': World)
    requires Inv(w) && lease in w.requests && w.requests[lease].pc == Loop(i, f)
    requires
      var r := w.requests[lease];
      i < |r.batch.items| && !Skips(r.batch.items[i]) && !Exhausted(r.batch, f)
      && ItemTx(w.db, r.batchId, lease, r.batch, i, now, eventId) == Ok(db')
    requires
      var r := w.requests[lease];
      r' == r.(pc := Loop(i + 1, f)) || r' == r.(pc := Recording(i, f + 1), unheard := r.unheard + 1)
    requires w' == World(db', w.requests[lease := r'])
    ensures Inv(w')
  {
    var r := w.requests[lease];
    var id := r.batchId;
    TheRequest(w, lease);
    TheStore(w);
    ItemHere(w.db, id, r, lease, i, f, now, eventId, db');
    TracksAttempt(w.db.batches[id], r, i, f, Succeeded(eventId, r.batch.items[i].read.value.version + 1), now, r');
    Reassembled(w, w', id, lease);
  }

  lemma RecordCommits(w: World, lease: Id, i: nat, f: nat, now: int, db': DB, pc: Pc, w': World)
    requires Inv(w) && lease in w.requests && w.requests[lease].pc == Recording(i, f)
    requires RecordTx(w.db, w.requests[lease].batchId, lease, i, now) == Ok(db')
    requires pc == Ended || pc == Loop(i + 1, f)
    requires w' == World(db', w.requests[lease := w.requests[lease].(pc := pc)])
    ensures Inv(w')
  {
    var r := w.requests[lease];
    var id := r.batchId;
    TheRequest(w, lease);
    var b := w.db.batches[id];
    if b.items[i].outcome.None? {
      TracksAttempt(b, r, i, f, Failed, now, r.(pc := pc));
    } else {
      TracksSettled(b, r, i, f, now, pc);
    }
    TheStore(w);
    LinkedOutcomes(w.db, db', id);
    Reassembled(w, w', id, lease);
  }

  lemma TracksSettled(b: Batch, r: Request, i: nat, f: nat, now: int, pc: Pc)
    requires Shape(b) && Progress(b) && b.phase == Executing && SameBatch(r.batch, b) && Tracks(b, r)
    requires r.pc == Recording(i, f) && b.items[i].outcome.Some? && (pc == Ended || pc == Loop(i + 1, f))
    ensures
      var b' := b.(heartbeat := Some(now));
      && SameBatch(b', b) && Shape(b') && Progress(b')
      && SameBatch(r.batch, b') && Tracks(b', r.(pc := pc))
  {
    var b' := b.(heartbeat := Some(now));
    assert SameBatch(b', b);
    ShapeKept(b, b');
    SameBatchTransitive(r.batch, b, b');
  }

  lemma Settling(b: Batch, r: Request, i: nat, f: nat, now: int)
    requires Shape(b) && Progress(b) && b.phase == Executing && SameBatch(r.batch, b)
    requires r.pc == Loop(i, f) && Tracks(b, r)
    requires i >= |b.items| || Exhausted(r.batch, f)
    ensures
      var b' := b.(phase := Executed, heartbeat := Some(now), items := SettleItems(b.items));
      SameBatch(b', b) && Shape(b') && Progress(b') && Stopped(b', r.unheard)
  {
    var b' := b.(phase := Executed, heartbeat := Some(now), items := SettleItems(b.items));
    CountFailedSettled(b.items);
    assert forall k :: 0 <= k < |b.items| ==> b'.items[k] == SettleItem(b.items[k]);
    assert SameBatch(b', b);
    ShapeKept(b, b');
    forall k | 0 <= k < |b.items| ensures Attempted(b'.items[k]) <==> Attempted(b.items[k]) {
      assert b'.items[k] == SettleItem(b.items[k]);
    }
  }

  lemma CompleteCommits(w: World, lease: Id, i: nat, f: nat, now: int, db': DB, w': World)
    requires Inv(w) && lease in w.requests && w.requests[lease].pc == Loop(i, f)
    requires
      var r := w.requests[lease];
      (i >= |r.batch.items| || Exhausted(r.batch, f)) && CompleteTx(w.db, r.batchId, lease, now) == Ok(db')
    requires w' == World(db', w.requests[lease := w.requests[lease].(pc := Ended)])
    ensures Inv(w')
  {
    var r := w.requests[lease];
    var id := r.batchId;
    TheRequest(w, lease);
    var b := w.db.batches[id];
    Settling(b, r, i, f, now);
    assert forall k :: 0 <= k < |b.items| ==> db'.batches[id].items[k] == SettleItem(b.items[k]);
    TheStore(w);
    LinkedOutcomes(w.db, db', id);
    SameBatchTransitive(r.batch, b, db'.batches[id]);
    Reassembled(w, w', id, lease);
  }

  /** A request that only moves its own place keeps everything, as long as it still tracks its batch. */
  lemma MovesOn(w: World, lease: Id, pc: Pc, w': World)
    requires Inv(w) && lease in w.requests
    requires w' == w.(requests := w.requests[lease := w.requests[lease].(pc := pc)])
    requires RequestOk(w', lease)
    ensures Inv(w')
  {
    TheStore(w);
    forall l | l in w'.requests ensures RequestOk(w', l) {
      TheRequest(w, l);
    }
    forall id | id in w'.db.batches ensures BatchOk(w', id) {
      TheBatch(w, id);
    }
    Fold(w');
  }

  lemma LoopKeeps(w: World, lease: Id, i: nat, f: nat, now: int, eventId: Id, fate: Fate, w': World)
    requires Inv(w) && lease in w.requests && w.requests[lease].pc == Loop(i, f)
    requires w' == Take(w, Next(lease, now, eventId, fate))
    ensures Inv(w')
  {
    var r := w.requests[lease];
    if i >= |r.batch.items| || (!Skips(r.batch.items[i]) && Exhausted(r.batch, f)) {
      var done := CompleteTx(w.db, r.batchId, lease, now);
      if done.Ok? && fate != RolledBack {
        CompleteCommits(w, lease, i, f, now, done.value, w');
      } else {
        Ends(w, lease, w');
      }
    } else if Skips(r.batch.items[i]) {
      Skipped(w, lease, i, f, w');
    } else {
      var done := ItemTx(w.db, r.batchId, lease, r.batch, i, now, eventId);
      if fate != RolledBack && done.Ok? {
        ItemCommits(w, lease, i, f, now, eventId, done.value, w'.requests[lease], w');
      } else if fate != RolledBack && done.error == LeaseLost {
        Ends(w, lease, w');
      } else {
        ItemFails(w, lease, i, f, w');
      }
    }
  }

  lemma NextKeeps(w: World, lease: Id, now: int, eventId: Id, fate: Fate, w': World)
    requires Inv(w) && lease in w.requests
    requires w' == Take(w, Next(lease, now, eventId, fate))
    ensures Inv(w')
  {
    var r := w.requests[lease];
    match r.pc {
      case Ended => Ends(w, lease, w');
      case Recording(i, f) =>
        var done := RecordTx(w.db, r.batchId, lease, i, now);
        if done.Ok? && fate != RolledBack {
          RecordCommits(w, lease, i, f, now, done.value, w'.requests[lease].pc, w');
        } else {
          Ends(w, lease, w');
        }
      case Loop(i, f) => LoopKeeps(w, lease, i, f, now, eventId, fate, w');
    }
  }

  lemma Ends(w: World, lease: Id, w': World)
    requires Inv(w) && lease in w.requests
    requires w' == w.(requests := w.requests[lease := w.requests[lease].(pc := Ended)])
    ensures Inv(w')
  {
    TheRequest(w, lease);
    MovesOn(w, lease, Ended, w');
  }

  lemma Skipped(w: World, lease: Id, i: nat, f: nat, w': World)
    requires Inv(w) && lease in w.requests && w.requests[lease].pc == Loop(i, f)
    requires i < |w.requests[lease].batch.items| && Skips(w.requests[lease].batch.items[i])
    requires w' == w.(requests := w.requests[lease := w.requests[lease].(pc := Loop(i + 1, f))])
    ensures Inv(w')
  {
    var r := w.requests[lease];
    TheRequest(w, lease);
    if HoldsLease(w.db, r.batchId, lease) {
      SkipTracks(w.db.batches[r.batchId], r, i, f);
    }
    MovesOn(w, lease, Loop(i + 1, f), w');
  }

  lemma SkipTracks(b: Batch, r: Request, i: nat, f: nat)
    requires Shape(b) && Progress(b) && b.phase == Executing && SameBatch(r.batch, b)
    requires r.pc == Loop(i, f) && Tracks(b, r) && i < |b.items| && Skips(r.batch.items[i])
    ensures Tracks(b, r.(pc := Loop(i + 1, f)))
  {
    assert SameItem(r.batch.items[i], b.items[i]);
  }

  lemma ItemFails(w: World, lease: Id, i: nat, f: nat, w': World)
    requires Inv(w) && lease in w.requests && w.requests[lease].pc == Loop(i, f)
    requires i < |w.requests[lease].batch.items|
    requires !Skips(w.requests[lease].batch.items[i]) && !Exhausted(w.requests[lease].batch, f)
    requires w' == w.(requests := w.requests[lease := w.requests[lease].(pc := Recording(i, f + 1))])
    ensures Inv(w')
  {
    var r := w.requests[lease];
    TheRequest(w, lease);
    if HoldsLease(w.db, r.batchId, lease) {
      OpenItem(w.db.batches[r.batchId], r, i, f);
    }
    MovesOn(w, lease, Recording(i, f + 1), w');
  }

  /** Starting, or taking over: the new holder loads the rows as they stand. */
  lemma BeginKeeps(w: World, batchId: Id, tenant: Id, lease: Id, now: int, allowance: Option<int>)
    requires Inv(w)
    ensures Inv(Take(w, Begin(batchId, tenant, lease, now, allowance)))
  {
    var done := BeginTx(w.db, batchId, tenant, lease, now, allowance);
    if lease !in w.requests && done.Ok? {
      var w' := Take(w, Begin(batchId, tenant, lease, now, allowance));
      TheStore(w);
      TheBatch(w, batchId);
      var b, b' := w.db.batches[batchId], done.value.batches[batchId];
      if b.phase == Previewed {
        CountFailedNone(b.items);
      }
      assert b'.items == b.items;
      ShapeKept(b, b');
      LinkedOutcomes(w.db, done.value, batchId);
      Reassembled(w, w', batchId, lease);
    }
  }

  // ----- a preview

  /** What the preview records of one item. */
  ghost predicate ItemPreviewed(members: M.Store, tenant: Id, action: M.Action, m: Id, item: Item) {
    && item.membership == m && item.outcome.None?
    && (item.read.Some? ==> exists e :: ReadAt(members.events, tenant, item, e))
    && (item.refusal.None? ==>
          && item.read.Some?
          && M.Resolve(action, item.read.value.status).Ok?
          && item.resulting == Some(M.Resolve(action, item.read.value.status).value))
  }

  lemma PreviewItemGood(members: M.Store, tenant: Id, action: M.Action, reason: string, m: Id, faults: set<M.Error>, item: Item)
    requires M.Valid(members) && PreviewItem(members, tenant, action, reason, m, faults) == Ok(item)
    ensures ItemPreviewed(members, tenant, action, m, item)
  {
    if item.read.Some? {
      var e := M.CurrentEvent(members, m);
      assert ReadAt(members.events, tenant, item, e);
    }
  }

  lemma {:induction false} PreviewItemsGood(members: M.Store, tenant: Id, action: M.Action, reason: string, ids: seq<Id>,
                                            faults: set<M.Error>, items: seq<Item>)
    requires M.Valid(members) && PreviewItems(members, tenant, action, reason, ids, faults) == Ok(items)
    ensures |items| == |ids|
    ensures forall i :: 0 <= i < |items| ==> ItemPreviewed(members, tenant, action, ids[i], items[i])
  {
    if ids != [] {
      var n := |ids| - 1;
      var before := PreviewItems(members, tenant, action, reason, ids[..n], faults).value;
      PreviewItemsGood(members, tenant, action, reason, ids[..n], faults, before);
      PreviewItemGood(members, tenant, action, reason, ids[n], faults, items[n]);
    }
  }

  /** The batch a preview stores. */
  lemma PreviewShape(members: M.Store, b: Batch, ids: seq<Id>, faults: set<M.Error>)
    requires M.Valid(members) && ValidateRequest(b.action, ids, b.reason).None?
    requires PreviewItems(members, b.tenant, b.action, b.reason, ids, faults) == Ok(b.items)
    requires b.phase == Previewed && b.lease.None?
    requires b.wouldNotChange == CountRefused(b.items) && b.wouldChange == |b.items| - b.wouldNotChange
    ensures Shape(b) && Progress(b) && ReadPublished(members.events, b)
  {
    PreviewItemsGood(members, b.tenant, b.action, b.reason, ids, faults, b.items);
    forall i | 0 <= i < |b.items| ensures ItemPreviewed(members, b.tenant, b.action, ids[i], b.items[i]) && ids[i] in ids {
    }
  }

  lemma PreviewKeeps(w: World, batchId: Id, tenant: Id, action: M.Action, ids: seq<Id>, reason: string, now: int,
                     faults: set<M.Error>)
    requires Inv(w)
    ensures Inv(Take(w, Preview(batchId, tenant, action, ids, reason, now, faults)))
  {
    var done := PreviewTx(w.db, batchId, tenant, action, ids, reason, now, faults);
    if done.Ok? {
      TheStore(w);
      PreviewShape(w.db.members, done.value.batches[batchId], ids, faults);
      BatchAdded(w, Take(w, Preview(batchId, tenant, action, ids, reason, now, faults)), batchId);
    }
  }

  lemma BatchAdded(w: World, w': World, batchId: Id)
    requires Inv(w) && batchId != NIL && batchId !in w.db.batches && batchId in w'.db.batches
    requires w'.requests == w.requests && w'.db.members == w.db.members
    requires w'.db.batches == w.db.batches[batchId := w'.db.batches[batchId]]
    requires Shape(w'.db.batches[batchId]) && w'.db.batches[batchId].phase == Previewed
    requires Progress(w'.db.batches[batchId]) && ReadPublished(w.db.members.events, w'.db.batches[batchId])
    ensures Inv(w')
  {
    TheStore(w);
    forall e | e in w.db.members.events ensures EventHasOutcome(w'.db.batches, e) {
      assert EventHasOutcome(w.db.batches, e);
    }
    forall l | l in w'.requests ensures RequestOk(w', l) {
      TheRequest(w, l);
    }
    forall id | id in w'.db.batches ensures BatchOk(w', id) {
      if id != batchId {
        TheBatch(w, id);
      }
    }
    Fold(w');
  }

  /** Requests and batches are as they were. */
  lemma Untouched(w: World, w': World)
    requires Inv(w) && w'.requests == w.requests && w'.db.batches == w.db.batches
    requires M.Valid(w'.db.members) && Linked(w'.db)
    ensures Inv(w')
  {
    forall l | l in w'.requests ensures RequestOk(w', l) {
      TheRequest(w, l);
    }
    forall id | id in w'.db.batches ensures BatchOk(w', id) {
      TheBatch(w, id);
    }
    Fold(w');
  }

  lemma OpPublishesDirect(s: M.Store, op: M.Op)
    ensures s.events <= M.Apply(s, op).events
    ensures forall i :: |s.events| <= i < |M.Apply(s, op).events| ==> M.Apply(s, op).events[i].body.origin == M.Direct
  {
  }

  /** Ordinary Membership changes publish events of their own and leave every batch alone. */
  lemma OtherKeeps(w: World, op: M.Op, w': World)
    requires Inv(w) && w' == Take(w, Other(op))
    ensures Inv(w')
  {
    TheStore(w);
    M.ApplyKeeps(w.db.members, op);
    OpPublishesDirect(w.db.members, op);
    LinkedOthers(w.db, w'.db.members);
    Untouched(w, w');
  }

  // ----- every step

  lemma StepKeeps(w: World, s: Step)
    requires Inv(w)
    ensures Inv(Take(w, s))
  {
    match s {
      case Preview(batchId, tenant, action, ids, reason, now, faults) =>
        PreviewKeeps(w, batchId, tenant, action, ids, reason, now, faults);
      case Begin(batchId, tenant, lease, now, allowance) =>
        BeginKeeps(w, batchId, tenant, lease, now, allowance);
      case Next(lease, now, eventId, fate) =>
        if lease in w.requests {
          NextKeeps(w, lease, now, eventId, fate, Take(w, s));
        }
      case Crash(lease) =>
        if lease in w.requests {
          Ends(w, lease, Take(w, s));
        }
      case Other(op) => OtherKeeps(w, op, Take(w, s));
    }
  }

  lemma {:induction false} RunKeeps(steps: seq<Step>)
    ensures Inv(Exec(START, steps))
  {
    if steps == [] {
      M.EmptyValid();
      Fold(START);
    } else {
      RunKeeps(steps[..|steps| - 1]);
      StepKeeps(Exec(START, steps[..|steps| - 1]), steps[|steps| - 1]);
    }
  }
}
