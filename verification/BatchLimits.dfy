/** Two claims about batches that do not hold in general, each by a concrete run. */
module BatchLimits {
  import opened Base
  import opened Projection
  import opened Batch
  import opened BatchInvariant
  import opened BatchSteps
  import opened BatchResults
  import M = Membership

  lemma ExecAppend(w: World, steps: seq<Step>, s: Step)
    ensures Exec(w, steps + [s]) == Take(Exec(w, steps), s)
  {
    assert (steps + [s])[..|steps|] == steps;
  }

  function Human(principal: Id): M.GrantRequest {
    M.GrantRequest(principal, NIL, NIL, "human", "import", Some(0), None)
  }

  function HumanRow(principal: Id, status: M.State, version: int): M.Row {
    M.Row(principal, 1, NIL, "human", status, version)
  }

  lemma Granting(s: M.Store, principal: Id, m: Id, eventId: Id)
    requires principal != NIL && m !in s.rows && !M.EventExists(s, eventId)
    requires forall k :: k in s.rows && s.rows[k].status == M.Active ==> s.rows[k].principal != principal
    ensures M.Apply(s, M.OpGrant(1, Human(principal), m, eventId))
            == M.Commit(s, m, HumanRow(principal, M.Active, 1), M.Grant, eventId, M.Direct)
  {
  }

  function Fresh(m: Id): Item {
    Item(m, Some(Read(M.Active, 1)), Some(M.Suspended), None, None)
  }

  /** Two active Memberships, of Principals 1 and 2. */
  function TwoMembers(): M.Store {
    M.Commit(M.Commit(M.EMPTY, 1, HumanRow(1, M.Active, 1), M.Grant, 1, M.Direct),
             2, HumanRow(2, M.Active, 1), M.Grant, 2, M.Direct)
  }

  lemma TwoMembersReached() returns (steps: seq<Step>)
    ensures Exec(START, steps) == World(DB(TwoMembers(), map[]), map[])
  {
    Granting(M.EMPTY, 1, 1, 1);
    var one := M.Commit(M.EMPTY, 1, HumanRow(1, M.Active, 1), M.Grant, 1, M.Direct);
    Granting(one, 2, 2, 2);
    var a, b := Other(M.OpGrant(1, Human(1), 1, 1)), Other(M.OpGrant(1, Human(2), 2, 2));
    ExecAppend(START, [], a);
    ExecAppend(START, [a], b);
    steps := [a] + [b];
    assert [] + [a] == [a];
  }

  lemma PreviewsFresh(m: Id)
    requires m == 1 || m == 2
    ensures PreviewItem(TwoMembers(), 1, M.Suspend, "", m, {}) == Ok(Fresh(m))
  {
    assert TwoMembers().rows[m] == HumanRow(m, M.Active, 1);
  }

  lemma NoneFailed()
    ensures CountFailed([Fresh(1), Fresh(2)]) == 0 && CountRefused([Fresh(1), Fresh(2)]) == 0
  {
    var items := [Fresh(1), Fresh(2)];
    assert items[..1] == [Fresh(1)];
    assert [Fresh(1)][..0] == [];
    assert CountRefused([Fresh(1)]) == 0 && CountFailed([Fresh(1)]) == 0;
  }

  function Stored(phase: Phase, lease: Option<Id>, items: seq<Item>): Batch {
    Batch(1, M.Suspend, "", phase, BATCH_TTL, 2, 0, if lease.Some? then Some(0) else None, lease,
          if lease.Some? then Some(0) else None, items)
  }

  lemma TwoPreviewed(db: DB)
    requires db == DB(TwoMembers(), map[])
    ensures PreviewTx(db, 1, 1, M.Suspend, [1, 2], "", 0, {})
            == Ok(DB(TwoMembers(), map[1 := Stored(Previewed, None, [Fresh(1), Fresh(2)])]))
  {
    PreviewsFresh(1);
    PreviewsFresh(2);
    PreviewItemsAppend(TwoMembers(), 1, M.Suspend, "", [], 1, {});
    PreviewItemsAppend(TwoMembers(), 1, M.Suspend, "", [1], 2, {});
    var none: seq<Id> := [];
    var one: seq<Id> := [1];
    assert none + [1] == one && one + [2] == [1, 2];
    assert [Fresh(1)] + [Fresh(2)] == [Fresh(1), Fresh(2)];
    NoneFailed();
  }

  lemma PreviewedWorld(w: World)
    requires w == World(DB(TwoMembers(), map[]), map[])
    ensures Take(w, Preview(1, 1, M.Suspend, [1, 2], "", 0, {}))
            == World(DB(TwoMembers(), map[1 := Stored(Previewed, None, [Fresh(1), Fresh(2)])]), map[])
  {
    TwoPreviewed(w.db);
  }

  lemma BegunWorld(w: World)
    requires w == World(DB(TwoMembers(), map[1 := Stored(Previewed, None, [Fresh(1), Fresh(2)])]), map[])
    ensures
      var b := Stored(Executing, Some(9), [Fresh(1), Fresh(2)]);
      Take(w, Begin(1, 1, 9, 0, Some(0))) == World(DB(TwoMembers(), map[1 := b]), map[9 := Request(1, b, Loop(0, 0), 0)])
  {
    NoneFailed();
  }

  /** A request with lease 9 holds the batch, tolerating no failure, before its first item. */
  lemma Started() returns (steps: seq<Step>)
    ensures
      var b := Stored(Executing, Some(9), [Fresh(1), Fresh(2)]);
      Exec(START, steps) == World(DB(TwoMembers(), map[1 := b]), map[9 := Request(1, b, Loop(0, 0), 0)])
  {
    var before := TwoMembersReached();
    var s1 := Preview(1, 1, M.Suspend, [1, 2], "", 0, {});
    var s2 := Begin(1, 1, 9, 0, Some(0));
    steps := before + [s1] + [s2];
    ExecAppend(START, before, s1);
    ExecAppend(START, before + [s1], s2);
    PreviewedWorld(Exec(START, before));
    BegunWorld(Exec(START, before + [s1]));
  }

  function Suspended(m: Id, eventId: Id): Item {
    Fresh(m).(outcome := Some(Succeeded(eventId, 2)))
  }

  /**
   When an item's commit is not acknowledged, its request counts a failure the table does not hold,
   and stops early: here a batch that tolerates no failure ends with one item succeeded, one not
   attempted past the error allowance, and not a single failure recorded.
   */
  lemma AllowanceWithoutFailure() returns (steps: seq<Step>)
    ensures 1 in Exec(START, steps).db.batches
    ensures
      var b := Exec(START, steps).db.batches[1];
      && b.phase == Executed && b.failOnErrors == Some(0)
      && b.items == [Suspended(1, 3), Fresh(2).(outcome := Some(NotAttempted(ErrorAllowance)))]
      && CountFailed(b.items) == 0
    ensures 9 in Exec(START, steps).requests && Exec(START, steps).requests[9].unheard == 1
  {
    steps := Started();
    var r := Exec(START, steps).requests[9];
    var after := [Suspended(1, 3), Fresh(2)];

    var s3 := Next(9, 0, 3, Unacknowledged);
    SuspendsFirst(Exec(START, steps).db, r.batch);
    ExecAppend(START, steps, s3);
    steps := steps + [s3];
    var w3 := Exec(START, steps);
    assert w3.requests[9] == r.(pc := Recording(0, 1), unheard := 1);
    assert w3.db.batches[1].items == after && HoldsLease(w3.db, 1, 9);

    var s4 := Next(9, 0, 4, Answered);
    ExecAppend(START, steps, s4);
    steps := steps + [s4];
    var w4 := Exec(START, steps);
    assert w4.requests[9] == r.(pc := Loop(1, 1), unheard := 1);
    assert w4.db.batches[1] == w3.db.batches[1];

    var s5 := Next(9, 0, 5, Answered);
    ExecAppend(START, steps, s5);
    steps := steps + [s5];
    assert Exec(START, steps).db.batches[1].items == SettleItems(after);
    CountFailedSettled(after);
    assert after[..1] == [Suspended(1, 3)];
    assert CountFailed([Suspended(1, 3)]) == 0;
  }

  lemma SuspendsFirst(db: DB, loaded: Batch)
    requires db.members == TwoMembers() && loaded.tenant == 1 && loaded.action == M.Suspend && loaded.reason == ""
    requires HoldsLease(db, 1, 9) && loaded.items == [Fresh(1), Fresh(2)] && db.batches[1].items == loaded.items
    ensures ItemTx(db, 1, 9, loaded, 0, 0, 3).Ok?
    ensures ItemTx(db, 1, 9, loaded, 0, 0, 3).value.batches == db.batches[1 := SetItem(db.batches[1], 0, Succeeded(3, 2), 0)]
  {
    assert TwoMembers().rows[1] == HumanRow(1, M.Active, 1);
    assert !M.EventExists(TwoMembers(), 3);
  }

  /**
   The preview promises a restore that the command refuses, although nothing changed in between: a
   second Membership of the same slot is active, which the preview does not look at.
   */
  lemma PreviewPromisesARefusedRestore() returns (ops: seq<M.Op>)
    ensures
      var s := M.Run(M.EMPTY, ops);
      && PreviewItem(s, 1, M.Restore, "", 1, {}) == Ok(Item(1, Some(Read(M.Suspended, 2)), Some(M.Active), None, None))
      && M.TransitionWithin(s, 1, M.Restore, M.Command(1, 2, ""), 9, M.Direct) == Err(M.ActiveElsewhere)
  {
    var a := M.OpGrant(1, Human(7), 1, 1);
    var b := M.OpTransition(1, M.Suspend, M.Command(1, 1, ""), 2);
    var c := M.OpGrant(1, Human(7), 2, 3);
    var s1 := M.Commit(M.EMPTY, 1, HumanRow(7, M.Active, 1), M.Grant, 1, M.Direct);
    var s2 := M.Commit(s1, 1, HumanRow(7, M.Suspended, 2), M.Suspend, 2, M.Direct);
    var s3 := M.Commit(s2, 2, HumanRow(7, M.Active, 1), M.Grant, 3, M.Direct);
    Granting(M.EMPTY, 7, 1, 1);
    assert M.Apply(s1, b) == s2;
    Granting(s2, 7, 2, 3);
    ops := [a, b, c];
    assert ops[..2] == [a, b] && [a, b][..1] == [a] && [a][..0] == [];
    assert M.Run(M.EMPTY, [a]) == s1;
    assert M.Run(M.EMPTY, [a, b]) == s2;
    assert M.Run(M.EMPTY, ops) == s3;
    assert s3.rows[1] == HumanRow(7, M.Suspended, 2);
    assert M.SlotTaken(s3.rows, 1, HumanRow(7, M.Active, 3)) by {
      assert 2 in s3.rows && s3.rows[2] == HumanRow(7, M.Active, 1);
    }
  }
}
