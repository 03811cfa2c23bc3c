/** That a batch can be finished from wherever it was left, and does what it promised when nothing disturbs it. */
module BatchProgress {
  import opened Base
  import opened Projection
  import opened Batch
  import opened BatchInvariant
  import opened BatchSteps
  import opened BatchRules
  import opened MembershipRules
  import M = Membership

  lemma {:induction false} ExecConcat(w: World, a: seq<Step>, b: seq<Step>)
    ensures Exec(w, a + b) == Exec(Exec(w, a), b)
  {
    if b == [] {
      assert a + b == a;
    } else {
      assert (a + b)[..|a + b| - 1] == a + b[..|b| - 1];
      ExecConcat(w, a, b[..|b| - 1]);
    }
  }

  lemma ExecFirst(w: World, s: Step, more: seq<Step>)
    ensures Exec(w, [s] + more) == Exec(Take(w, s), more)
  {
    ExecConcat(w, [s], more);
    assert [s][..0] == [];
    assert Exec(w, [s]) == Take(w, s);
  }

  lemma {:induction false} Fresh(used: set<nat>) returns (n: nat)
    ensures forall k :: k in used ==> k < n
  {
    if used == {} {
      n := 0;
    } else {
      var k :| k in used;
      var m := Fresh(used - {k});
      n := if m <= k then k + 1 else m;
      assert forall j :: j in used ==> j == k || j in used - {k};
    }
  }

  lemma FreshEvent(s: M.Store) returns (n: Id)
    ensures !Used(s, n)
  {
    var used := set i | 0 <= i < |s.events| :: s.events[i].body.eventId;
    n := Fresh(used);
    forall i | 0 <= i < |s.events| ensures s.events[i].body.eventId != n {
      assert s.events[i].body.eventId in used;
    }
  }

  /** The request holds the batch, before item i of what it loaded. */
  ghost predicate Before(w: World, lease: Id, i: nat, f: nat) {
    && lease in w.requests && w.requests[lease].pc == Loop(i, f) && Has(w.db, w.requests[lease].batchId, lease)
    && |w.requests[lease].batch.items| == |w.db.batches[w.requests[lease].batchId].items|
  }

  ghost predicate Finished(w: World, id: Id) {
    && id in w.db.batches && w.db.batches[id].phase == Executed
    && forall k :: 0 <= k < |w.db.batches[id].items| ==> w.db.batches[id].items[k].outcome.Some?
  }

  lemma CompletesNow(w: World, lease: Id, i: nat, f: nat) returns (s: Step)
    requires Before(w, lease, i, f)
    requires
      var r := w.requests[lease];
      i >= |r.batch.items| || (!Skips(r.batch.items[i]) && Exhausted(r.batch, f))
    ensures Finished(Take(w, s), w.requests[lease].batchId)
    ensures Take(w, s).db.members == w.db.members
    ensures Closed(w.db.batches[w.requests[lease].batchId], Take(w, s).db.batches[w.requests[lease].batchId], 0)
  {
    s := Next(lease, 0, 0, Answered);
    CompleteExactlyWhen(w.db, w.requests[lease].batchId, lease, 0);
  }

  /** An item that fails is recorded and passed, whatever its own transaction would have done. */
  lemma FailsAndGoesOn(w: World, lease: Id, i: nat, f: nat) returns (a: Step, b: Step)
    requires Before(w, lease, i, f)
    requires
      var r := w.requests[lease];
      i < |r.batch.items| && !Skips(r.batch.items[i]) && !Exhausted(r.batch, f)
    ensures
      var w' := Take(Take(w, a), b);
      Before(w', lease, i + 1, f + 1) && w'.requests[lease].batchId == w.requests[lease].batchId && w'.requests[lease].batch == w.requests[lease].batch
  {
    a, b := Next(lease, 0, 0, RolledBack), Next(lease, 0, 0, Answered);
    var mid := Take(w, a);
    assert mid.db == w.db && mid.requests[lease].pc == Recording(i, f + 1);
    RecordExactlyWhen(mid.db, w.requests[lease].batchId, lease, i, 0);
  }

  /** From inside the loop some run ends with the batch executed. */
  lemma {:induction false} FinishesFrom(w: World, lease: Id, i: nat, f: nat) returns (more: seq<Step>)
    requires Before(w, lease, i, f)
    ensures Finished(Exec(w, more), w.requests[lease].batchId)
    decreases |w.requests[lease].batch.items| - i
  {
    var r := w.requests[lease];
    if i >= |r.batch.items| || (!Skips(r.batch.items[i]) && Exhausted(r.batch, f)) {
      var s := CompletesNow(w, lease, i, f);
      more := [s] + [];
      ExecFirst(w, s, []);
    } else if Skips(r.batch.items[i]) {
      var s := Next(lease, 0, 0, Answered);
      var rest := FinishesFrom(Take(w, s), lease, i + 1, f);
      more := [s] + rest;
      ExecFirst(w, s, rest);
    } else {
      var a, b := FailsAndGoesOn(w, lease, i, f);
      var rest := FinishesFrom(Take(Take(w, a), b), lease, i + 1, f + 1);
      more := [a] + ([b] + rest);
      ExecFirst(w, a, [b] + rest);
      ExecFirst(Take(w, a), b, rest);
    }
  }

  /** Taking over, at a clock reading past the last heartbeat by more than thirty seconds. */
  lemma TakesOver(w: World, id: Id) returns (s: Step, lease: Id, f: nat)
    requires id != NIL && id in w.db.batches && w.db.batches[id].phase == Executing
    ensures Before(Take(w, s), lease, 0, f) && Take(w, s).requests[lease].batchId == id
  {
    lease := Fresh(w.requests.Keys);
    var b := w.db.batches[id];
    var now := if b.heartbeat.Some? then b.heartbeat.value + 31 * 1_000_000_000 else 0;
    s := Begin(id, b.tenant, lease, now, None);
    BeginExactlyWhen(w.db, id, b.tenant, lease, now, None);
    f := CountFailed(b.items);
  }

  /** Progress: however a batch was left executing, some run ends with it executed and every item settled. */
  lemma AlwaysFinishable(steps: seq<Step>, id: Id) returns (more: seq<Step>)
    requires id in Exec(START, steps).db.batches && Exec(START, steps).db.batches[id].phase == Executing
    ensures Finished(Exec(Exec(START, steps), more), id)
  {
    var w := Exec(START, steps);
    RunKeeps(steps);
    TheBatch(w, id);
    var s, lease, f := TakesOver(w, id);
    var rest := FinishesFrom(Take(w, s), lease, 0, f);
    more := [s] + rest;
    ExecFirst(w, s, rest);
  }

  // ----- what was promised is done

  /** No item's transition stands in another's way. */
  ghost predicate Apart(members: M.Store, b: Batch) {
    && b.action != M.Grant
    && (forall j, k :: 0 <= j < k < |b.items| ==> b.items[j].membership != b.items[k].membership)
    && (b.action == M.Restore ==>
          forall j, k :: 0 <= j < |b.items| && 0 <= k < |b.items| && j != k && b.items[j].membership in members.rows && b.items[k].membership in members.rows ==>
            !Twins(members.rows[b.items[j].membership], members.rows[b.items[k].membership]))
  }

  /** Every item still to do may be done at the version previewed. */
  ghost predicate Ready(w: World, lease: Id, i: nat)
    requires lease in w.requests && w.requests[lease].batchId in w.db.batches
  {
    var r := w.requests[lease];
    var b := w.db.batches[r.batchId];
    && Apart(w.db.members, r.batch) && |b.items| == |r.batch.items|
    && forall j :: i <= j < |b.items| && !Skips(r.batch.items[j]) ==>
         b.items[j].outcome.None? && May(w.db.members, r.batch.tenant, r.batch.action, CommandOf(r.batch, j))
  }

  ghost predicate Done(b: Batch, k: nat)
    requires k < |b.items|
  {
    b.items[k].outcome.Some? && b.items[k].outcome.value.Succeeded?
  }

  /** Moving one row leaves every other transition as free as it was. */
  lemma MayStays(s: M.Store, s': M.Store, tenant: Id, action: M.Action, m: Id, eventId: Id, origin: M.Origin, cmd: M.Command)
    requires action != M.Grant && Moved(s, s', m, action, eventId, origin) && May(s, tenant, action, cmd) && cmd.membership != m
    requires action == M.Restore ==> !Twins(s.rows[m], s.rows[cmd.membership])
    ensures May(s', tenant, action, cmd) && s'.rows[cmd.membership] == s.rows[cmd.membership]
  {
  }

  /** One item, undisturbed: it succeeds, and the rest are as ready as before. */
  lemma ItemSucceeds(w: World, lease: Id, i: nat, f: nat) returns (s: Step)
    requires Before(w, lease, i, f) && Ready(w, lease, i)
    requires
      var r := w.requests[lease];
      i < |r.batch.items| && !Skips(r.batch.items[i]) && !Exhausted(r.batch, f)
    ensures
      var w' := Take(w, s);
      var id := w.requests[lease].batchId;
      && Before(w', lease, i + 1, f) && Ready(w', lease, i + 1) && w'.requests[lease] == w.requests[lease].(pc := Loop(i + 1, f))
      && Done(w'.db.batches[id], i)
      && forall k :: 0 <= k < |w.db.batches[id].items| && k != i ==> w'.db.batches[id].items[k] == w.db.batches[id].items[k]
  {
    var r := w.requests[lease];
    var event := FreshEvent(w.db.members);
    s := Next(lease, 0, event, Answered);
    ItemExactlyWhen(w.db, r.batchId, lease, r.batch, i, 0, event);
    var w' := Take(w, s);
    var origin := M.BatchItem(r.batchId, i);
    forall j | i + 1 <= j < |r.batch.items| && !Skips(r.batch.items[j])
      ensures May(w'.db.members, r.batch.tenant, r.batch.action, CommandOf(r.batch, j))
    {
      MayStays(w.db.members, w'.db.members, r.batch.tenant, r.batch.action, r.batch.items[i].membership, event, origin, CommandOf(r.batch, j));
    }
    ApartStays(w.db.members, w'.db.members, r.batch, r.batch.items[i].membership, event, origin);
  }

  lemma ApartStays(s: M.Store, s': M.Store, b: Batch, m: Id, eventId: Id, origin: M.Origin)
    requires Apart(s, b) && Moved(s, s', m, b.action, eventId, origin)
    ensures Apart(s', b)
  {
    if b.action == M.Restore {
      forall j, k | 0 <= j < |b.items| && 0 <= k < |b.items| && j != k && b.items[j].membership in s'.rows && b.items[k].membership in s'.rows
        ensures !Twins(s'.rows[b.items[j].membership], s'.rows[b.items[k].membership])
      {
        assert b.items[j].membership in s.rows && b.items[k].membership in s.rows;
      }
    }
  }

  /** Undisturbed from inside the loop, every item still to do succeeds and what was done stays. */
  lemma {:induction false} SucceedsFrom(w: World, lease: Id, i: nat, f: nat) returns (more: seq<Step>)
    requires Before(w, lease, i, f) && Ready(w, lease, i) && !Exhausted(w.requests[lease].batch, f)
    ensures
      var r := w.requests[lease];
      var id := r.batchId;
      var w' := Exec(w, more);
      && Finished(w', id) && |w'.db.batches[id].items| == |w.db.batches[id].items|
      && (forall k :: 0 <= k < |w.db.batches[id].items| && w.db.batches[id].items[k].outcome.Some? ==>
            w'.db.batches[id].items[k].outcome == w.db.batches[id].items[k].outcome)
      && (forall k :: i <= k < |w.db.batches[id].items| && !Skips(r.batch.items[k]) ==> Done(w'.db.batches[id], k))
    decreases |w.requests[lease].batch.items| - i
  {
    var r := w.requests[lease];
    if i >= |r.batch.items| {
      var s := CompletesNow(w, lease, i, f);
      more := [s] + [];
      ExecFirst(w, s, []);
    } else if Skips(r.batch.items[i]) {
      var s := Next(lease, 0, 0, Answered);
      assert Take(w, s).db == w.db;
      var rest := SucceedsFrom(Take(w, s), lease, i + 1, f);
      more := [s] + rest;
      ExecFirst(w, s, rest);
    } else {
      var s := ItemSucceeds(w, lease, i, f);
      var rest := SucceedsFrom(Take(w, s), lease, i + 1, f);
      more := [s] + rest;
      ExecFirst(w, s, rest);
    }
  }

  /** A preview is executed within its time and nothing disturbs it: every item it promised succeeds. */
  lemma PromisesKept(steps: seq<Step>, id: Id, now: int) returns (more: seq<Step>)
    requires
      var w := Exec(START, steps);
      && id in w.db.batches && w.db.batches[id].phase == Previewed && now <= w.db.batches[id].expiresAt
      && Apart(w.db.members, w.db.batches[id])
      && forall k :: 0 <= k < |w.db.batches[id].items| && w.db.batches[id].items[k].refusal.None? && w.db.batches[id].items[k].read.Some? ==>
           May(w.db.members, w.db.batches[id].tenant, w.db.batches[id].action, CommandOf(w.db.batches[id], k))
    ensures
      var b := Exec(START, steps).db.batches[id];
      var w' := Exec(Exec(START, steps), more);
      && Finished(w', id) && |w'.db.batches[id].items| == |b.items|
      && forall k :: 0 <= k < |b.items| && b.items[k].refusal.None? ==> Done(w'.db.batches[id], k)
  {
    var w := Exec(START, steps);
    RunKeeps(steps);
    TheBatch(w, id);
    var b := w.db.batches[id];
    var lease := Fresh(w.requests.Keys);
    var s := Begin(id, b.tenant, lease, now, None);
    BeginExactlyWhen(w.db, id, b.tenant, lease, now, None);
    CountFailedNone(b.items);
    var w1 := Take(w, s);
    assert w1.requests[lease].batch.items == b.items && Before(w1, lease, 0, 0);
    var rest := SucceedsFrom(w1, lease, 0, 0);
    more := [s] + rest;
    ExecFirst(w, s, rest);
  }
}
