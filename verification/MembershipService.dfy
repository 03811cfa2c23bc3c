/** The Membership service as it runs: rows and events updated in place, one transaction at a time. */
module MembershipService {
  import opened Base
  import opened Projection
  import opened Advance
  import opened MembershipRules
  import M = Membership

  /** An advance publishes the row at the version past Above, or nothing when the row is past it already. */
  ghost predicate PublishesOne(row: M.Row, a: Advance, more: seq<Record<M.Body>>) {
    if row.version > a.above then more == []
    else |more| == 1 && more[0].key == a.membership && more[0].version == a.above + 1
         && more[0].body.row == row.(version := a.above + 1) && Carries(more[0].body.action, row.status)
  }

  /** An advance names a Membership, its Tenant and a version. */
  ghost predicate Named(a: Advance) {
    a.membership != NIL && a.tenant != NIL && a.above > 0
  }

  /** What the source reports of one advance: `event` when it moved the version. */
  datatype Advanced = Advanced(membership: Id, tenant: Id, from: int, to: int, status: M.State, event: Option<Id>)

  /** The answer tells each advance in turn: where the row was and is, and an event exactly where it moved. */
  ghost predicate Answers(done: seq<Advanced>, advances: seq<Advance>) {
    && |done| == |advances|
    && forall i :: 0 <= i < |done| ==>
         && done[i].membership == advances[i].membership && done[i].tenant == advances[i].tenant
         && done[i].to == Max(done[i].from, advances[i].above + 1)
         && (done[i].event.Some? <==> done[i].from <= advances[i].above)
  }

  lemma AnswersAppend(a: seq<Advanced>, x: seq<Advance>, b: seq<Advanced>, y: seq<Advance>)
    requires Answers(a, x) && Answers(b, y)
    ensures Answers(a + b, x + y)
  {
  }

  /** Advances of one transaction, from the store it started with: rows at their targets, and events past each Above. */
  ghost predicate Applied(before: M.Store, advances: seq<Advance>, k: nat, after: M.Store)
    requires k <= |advances|
  {
    && after.rows == RowsAfter(before.rows, advances[..k])
    && before.events <= after.events
    && AllPastAbove(advances, after.events[|before.events|..])
  }

  lemma AppliedOneMore(start: M.Store, before: M.Store, after: M.Store, advances: seq<Advance>, k: nat)
    requires k < |advances| && Applied(start, advances, k, before) && advances[k].membership in start.rows
    requires before.events <= after.events
    requires
      var row := before.rows[advances[k].membership];
      && after.rows == before.rows[advances[k].membership := row.(version := Max(row.version, advances[k].above + 1))]
      && PublishesOne(row, advances[k], after.events[|before.events|..])
    ensures Applied(start, advances, k + 1, after)
  {
    var a := advances[k];
    assert advances[..k + 1] == advances[..k] + [a];
    RowsAfterAppend(start.rows, advances[..k], [a]);
    assert [a][..0] == [];
    assert after.rows == RowsAfter(before.rows, [a]);
    var more := after.events[|before.events|..];
    assert after.events[|start.events|..] == before.events[|start.events|..] + more;
    forall e | e in more ensures PastAbove(advances, e) {
      assert a in advances;
    }
  }

  ghost predicate Ascending<T>(xs: seq<T>, key: T -> Id) {
    forall i, j :: 0 <= i < j < |xs| ==> key(xs[i]) <= key(xs[j])
  }

  /** Places x after every element of a sorted sequence whose key is not above its own. */
  function Insert<T>(xs: seq<T>, x: T, key: T -> Id): seq<T> {
    if xs == [] || key(xs[|xs| - 1]) <= key(x) then xs + [x]
    else Insert(xs[..|xs| - 1], x, key) + [xs[|xs| - 1]]
  }

  lemma {:induction false} InsertSame<T>(xs: seq<T>, x: T, key: T -> Id)
    ensures multiset(Insert(xs, x, key)) == multiset(xs) + multiset{x}
    ensures forall y :: y in Insert(xs, x, key) ==> y in xs || y == x
  {
    if xs == [] || key(xs[|xs| - 1]) <= key(x) {
    } else {
      var n := |xs| - 1;
      InsertSame(xs[..n], x, key);
      assert xs == xs[..n] + [xs[n]];
    }
  }

  lemma {:induction false} InsertAscending<T>(xs: seq<T>, x: T, key: T -> Id)
    requires Ascending(xs, key)
    ensures Ascending(Insert(xs, x, key), key)
  {
    if xs == [] || key(xs[|xs| - 1]) <= key(x) {
    } else {
      var n := |xs| - 1;
      InsertAscending(xs[..n], x, key);
      InsertSame(xs[..n], x, key);
      var rest := Insert(xs[..n], x, key);
      forall i | 0 <= i < |rest| ensures key(rest[i]) <= key(xs[n]) {
        assert rest[i] in rest;
      }
    }
  }

  /** sort.Slice: the same elements, in key order. */
  method SortSlice<T>(xs: seq<T>, key: T -> Id) returns (sorted: seq<T>)
    ensures multiset(sorted) == multiset(xs) && Ascending(sorted, key)
  {
    sorted := [];
    for k := 0 to |xs|
      invariant multiset(sorted) == multiset(xs[..k]) && Ascending(sorted, key)
    {
      InsertSame(sorted, xs[k], key);
      InsertAscending(sorted, xs[k], key);
      assert xs[..k + 1] == xs[..k] + [xs[k]];
      sorted := Insert(sorted, xs[k], key);
    }
    assert xs[..|xs|] == xs;
  }

  lemma SameElements<T>(a: seq<T>, b: seq<T>)
    requires multiset(a) == multiset(b)
    ensures forall x :: x in a <==> x in b
  {
    forall x ensures x in a <==> x in b {
      assert x in a <==> x in multiset(a);
      assert x in b <==> x in multiset(b);
    }
  }

  /** The advances of one Tenant, in the report's order, as often as it names them. */
  function OfTenant(advances: seq<Advance>, tenant: Id): seq<Advance> {
    if advances == [] then []
    else OfTenant(advances[..|advances| - 1], tenant)
         + if advances[|advances| - 1].tenant == tenant then [advances[|advances| - 1]] else []
  }

  lemma {:induction false} OfTenantHolds(advances: seq<Advance>, tenant: Id)
    ensures forall a :: a in OfTenant(advances, tenant) <==> a in advances && a.tenant == tenant
  {
    if advances != [] {
      OfTenantHolds(advances[..|advances| - 1], tenant);
      assert advances == advances[..|advances| - 1] + [advances[|advances| - 1]];
    }
  }

  /** Every Tenant of the report once, with its advances in order and nothing lost. */
  ghost predicate Partitions(advances: seq<Advance>, byTenant: map<Id, seq<Advance>>, tenants: seq<Id>) {
    && (forall t :: t in byTenant ==> byTenant[t] == OfTenant(advances, t) && byTenant[t] != [])
    && (forall t :: t !in byTenant ==> OfTenant(advances, t) == [])
    && (forall t :: t in tenants <==> t in byTenant)
    && (forall i, j :: 0 <= i < j < |tenants| ==> tenants[i] != tenants[j])
  }

  lemma OfTenantAppend(advances: seq<Advance>, a: Advance, tenant: Id)
    ensures OfTenant(advances + [a], tenant) == OfTenant(advances, tenant) + if a.tenant == tenant then [a] else []
  {
    assert (advances + [a])[..|advances|] == advances;
  }

  lemma PartitionsOneMore(advances: seq<Advance>, byTenant: map<Id, seq<Advance>>, tenants: seq<Id>, a: Advance)
    requires Partitions(advances, byTenant, tenants)
    ensures a.tenant in byTenant ==> Partitions(advances + [a], byTenant[a.tenant := byTenant[a.tenant] + [a]], tenants)
    ensures a.tenant !in byTenant ==> Partitions(advances + [a], byTenant[a.tenant := [a]], tenants + [a.tenant])
  {
    forall t ensures OfTenant(advances + [a], t) == OfTenant(advances, t) + if a.tenant == t then [a] else [] {
      OfTenantAppend(advances, a, t);
    }
  }

  method Partition(advances: seq<Advance>) returns (byTenant: map<Id, seq<Advance>>, tenants: seq<Id>)
    ensures Partitions(advances, byTenant, tenants)
  {
    byTenant, tenants := map[], [];
    for k := 0 to |advances|
      invariant Partitions(advances[..k], byTenant, tenants)
    {
      var a := advances[k];
      PartitionsOneMore(advances[..k], byTenant, tenants, a);
      assert advances[..k + 1] == advances[..k] + [a];
      if a.tenant !in byTenant {
        tenants := tenants + [a.tenant];
        byTenant := byTenant[a.tenant := [a]];
      } else {
        byTenant := byTenant[a.tenant := byTenant[a.tenant] + [a]];
      }
    }
    assert advances[..|advances|] == advances;
  }

  /** Whose event identifier is minted when the operation runs. */
  function Minted(op: M.Op, eventId: Id): M.Op {
    match op
    case OpGrant(tenant, req, m, _) => M.OpGrant(tenant, req, m, eventId)
    case OpTransition(tenant, action, cmd, _) => M.OpTransition(tenant, action, cmd, eventId)
    case OpAdvance(tenant, m, above, _) => M.OpAdvance(tenant, m, above, eventId)
  }

  class Service {
    var store: M.Store

    /** The next event identifier: minted once. */
    var nextEvent: Id

    ghost predicate Valid()
      reads this
    {
      M.Valid(store) && forall e :: e in store.events ==> e.body.eventId < nextEvent
    }

    constructor ()
      ensures Valid() && store == M.EMPTY
    {
      store, nextEvent := M.EMPTY, 0;
      new;
      M.EmptyValid();
    }

    /** Writes the row, and the event that publishes it. */
    method Append(m: Id, row: M.Row, action: M.Action)
      requires Valid() && M.Rises(store, m, row) && !M.SlotTaken(store.rows, m, row)
      modifies this
      ensures Valid() && M.Later(old(store), store)
      ensures store == M.Commit(old(store), m, row, action, old(nextEvent), M.Direct) && nextEvent == old(nextEvent) + 1
    {
      assert !M.EventExists(store, nextEvent);
      M.CommitKeeps(store, m, row, action, nextEvent, M.Direct);
      store := M.Store(store.rows[m := row], store.events + [Record(m, row.version, M.Body(nextEvent, row, action, M.Direct))]);
      nextEvent := nextEvent + 1;
    }

    /**
     One transition: read under the Tenant's policy, decided, written with its version and its event.
     It succeeds exactly when it may, moves the one row, and is refused by the first condition it fails.
     */
    method Transition(tenant: Id, action: M.Action, cmd: M.Command) returns (r: Result<M.Row, M.Error>)
      requires Valid() && action != M.Grant
      modifies this
      ensures Valid() && M.Later(old(store), store)
      ensures store == M.Apply(old(store), M.OpTransition(tenant, action, cmd, old(nextEvent)))
      ensures r.Ok? <==> May(old(store), tenant, action, cmd)
      ensures r.Ok? ==> Moved(old(store), store, cmd.membership, action, old(nextEvent), M.Direct) && store.rows[cmd.membership] == r.value
      ensures r.Err? ==> store == old(store) && RefusedAs(old(store), tenant, action, cmd, r.error)
    {
      TransitionExactlyWhen(store, tenant, action, cmd, nextEvent, M.Direct);
      Unused();
      var invalid := M.Validate(action, cmd);
      if invalid.Some? {
        return Err(invalid.value);
      }
      var current := M.Load(store, tenant, cmd.membership);
      if current.Err? {
        return current;
      }
      var next := M.Decide(action, current.value, cmd.expected);
      if next.Err? {
        return Err(next.error);
      }
      var row := current.value.(status := next.value, version := current.value.version + 1);
      if M.SlotTaken(store.rows, cmd.membership, row) {
        return Err(M.ActiveElsewhere);
      }
      M.VersionPositive(store, cmd.membership);
      Append(cmd.membership, row, action);
      return Ok(row);
    }

    /** The next event identifier is no event's. */
    lemma Unused()
      requires Valid()
      ensures !Used(store, nextEvent) && !M.EventExists(store, nextEvent)
    {
      UsedExactlyWhen(store, nextEvent);
    }

    /** A new Membership: active, at version 1, in the bound Tenant, unless the slot has an active one. */
    method Grant(tenant: Id, req: M.GrantRequest, m: Id) returns (r: Result<M.Row, M.Error>)
      requires Valid() && m !in store.rows
      modifies this
      ensures Valid() && M.Later(old(store), store)
      ensures store == M.Apply(old(store), M.OpGrant(tenant, req, m, old(nextEvent)))
      ensures
        var row := M.Row(req.principal, tenant, req.workspace, req.subjectType, M.Active, 1);
        && (r.Ok? <==> GrantWellAsked(req, tenant) && !ActiveTwin(old(store).rows, m, row))
        && (r.Err? ==> store == old(store) && r.error == if GrantWellAsked(req, tenant) then M.ActiveElsewhere else M.Invalid)
      ensures r.Ok? ==> GrantedRow(r.value, req, tenant) && store.rows == old(store).rows[m := r.value]
                        && store.events == old(store).events + [Record(m, 1, M.Body(old(nextEvent), r.value, M.Grant, M.Direct))]
    {
      GrantExactlyWhen(store, tenant, req, m, nextEvent);
      Unused();
      if !M.GrantValid(req, tenant) {
        return Err(M.Invalid);
      }
      var row := M.Row(req.principal, tenant, req.workspace, req.subjectType, M.Active, 1);
      if M.SlotTaken(store.rows, m, row) {
        return Err(M.ActiveElsewhere);
      }
      Append(m, row, M.Grant);
      return Ok(row);
    }

    /** Other requests run. */
    method Interleave(others: seq<M.Op>)
      requires Valid()
      modifies this
      ensures Valid() && M.Later(old(store), store)
      ensures others == [] ==> store == old(store)
    {
      LaterReflexive(store);
      for i := 0 to |others|
        invariant Valid() && M.Later(old(store), store)
        invariant others == [] ==> store == old(store)
      {
        Other(others[i], old(store));
      }
    }

    method Other(op: M.Op, ghost since: M.Store)
      requires Valid() && M.Later(since, store)
      modifies this
      ensures Valid() && M.Later(since, store)
    {
      ghost var before := store;
      M.ApplyKeeps(store, Minted(op, nextEvent));
      store := M.Apply(store, Minted(op, nextEvent));
      M.LaterTransitive(since, before, store);
      nextEvent := nextEvent + 1;
    }

    /** One advance inside the transaction of its Tenant. */
    method AdvanceOne(tenant: Id, a: Advance) returns (r: Result<Advanced, M.Error>)
      requires Valid()
      modifies this
      ensures Valid() && M.Later(old(store), store)
      ensures r.Ok? <==> There(old(store), tenant, a.membership)
      ensures r.Err? ==> store == old(store) && r.error == M.NotFound
      ensures r.Ok? ==>
                var row := old(store).rows[a.membership];
                && store.rows == old(store).rows[a.membership := row.(version := Max(row.version, a.above + 1))]
                && PublishesOne(row, a, store.events[|old(store).events|..])
                && Answers([r.value], [a.(tenant := tenant)])
                && r.value.from == row.version && r.value.status == row.status
    {
      var current := M.Load(store, tenant, a.membership);
      if current.Err? {
        return Err(current.error);
      }
      if current.value.version > a.above {
        LaterReflexive(store);
        return Ok(Advanced(a.membership, tenant, current.value.version, current.value.version, current.value.status, None));
      }
      var row := current.value.(version := a.above + 1);
      M.VersionPositive(store, a.membership);
      M.AdvanceTakesNoSlot(store, a.membership, row);
      Append(a.membership, row, M.ActionFor(row.status));
      return Ok(Advanced(a.membership, tenant, current.value.version, a.above + 1, row.status, Some(nextEvent - 1)));
    }

    /** The advances of one Tenant, in one transaction: all of them, or none. */
    method AdvanceTenant(tenant: Id, advances: seq<Advance>) returns (r: Result<seq<Advanced>, M.Error>)
      requires Valid() && forall a :: a in advances ==> a.tenant == tenant
      modifies this
      ensures Valid() && M.Later(old(store), store)
      ensures r.Ok? <==> forall a :: a in advances ==> Found(old(store).rows, a)
      ensures r.Ok? ==> Applied(old(store), advances, |advances|, store) && Answers(r.value, advances)
      ensures r.Err? ==> store == old(store)
    {
      var saved := store;
      var applied: seq<Advanced> := [];
      LaterReflexive(store);
      for k := 0 to |advances|
        invariant Valid() && M.Later(saved, store) && Applied(saved, advances, k, store) && Answers(applied, advances[..k])
        invariant forall a :: a in advances[..k] ==> Found(saved.rows, a)
      {
        ghost var before := store;
        var a := advances[k];
        assert a in advances && a.(tenant := tenant) == a;
        var one := AdvanceOne(tenant, a);
        if one.Err? {
          store := saved;
          EarlierIds(saved.events, before.events, nextEvent);
          LaterReflexive(store);
          return Err(one.error);
        }
        M.LaterTransitive(saved, before, store);
        AppliedOneMore(saved, before, store, advances, k);
        AnswersAppend(applied, advances[..k], [one.value], [a]);
        assert advances[..k + 1] == advances[..k] + [a];
        applied := applied + [one.value];
      }
      assert advances[..|advances|] == advances;
      return Ok(applied);
    }

    /**
     Moves each Membership past its Above, one Tenant per transaction, with other requests before each.
     What it has committed when it returns is whole Tenants of the report, all of them when it
     succeeds; every Membership in it ends above its Above and every event it published is one past
     one. With nothing in between, each row is at its target, whatever the order and repetition of the
     report.
     */
    method AdvanceVersions(advances: seq<Advance>, reason: string, others: nat -> seq<M.Op>)
      returns (done: seq<Advanced>, err: Option<M.Error>, ghost committed: seq<Advance>, ghost published: seq<Record<M.Body>>)
      requires Valid()
      modifies this
      ensures Valid() && M.Later(old(store), store)
      ensures err.None? ==> Says(reason) && (forall a :: a in advances ==> Named(a) && a in committed)
      ensures Says(reason) && (forall a :: a in advances ==> Named(a) && There(old(store), a.tenant, a.membership)) ==> err.None?
      ensures !Says(reason) ==> err == Some(M.ReasonRequired) && store == old(store)
      ensures Says(reason) && (exists a :: a in advances && !Named(a)) ==> err == Some(M.Invalid) && store == old(store)
      ensures forall a :: a in committed ==>
                a in advances && There(store, a.tenant, a.membership) && store.rows[a.membership].version > a.above
      ensures forall a, b :: a in advances && b in advances && a.tenant == b.tenant ==> (a in committed <==> b in committed)
      ensures Answers(done, committed)
      ensures AllPastAbove(committed, published) && forall e :: e in published ==> e in store.events
      ensures (forall k :: others(k) == []) ==>
                && store.rows == RowsAfter(old(store).rows, committed) && store.events == old(store).events + published
                && (err.None? ==> store.rows == RowsAfter(old(store).rows, advances))
    {
      done, err, committed, published := [], None, [], [];
      LaterReflexive(store);
      NothingCommitted(store.rows);
      SaysExactlyWhen(reason);
      if Blank(reason) {
        err := Some(M.ReasonRequired);
        return;
      }
      var acceptable := AllAcceptable(advances);
      if !acceptable {
        err := Some(M.Invalid);
        return;
      }
      done, err, committed, published := AdvanceAccepted(advances, others);
    }

    /** The Tenants of an acceptable report, in order. */
    method AdvanceAccepted(advances: seq<Advance>, others: nat -> seq<M.Op>)
      returns (done: seq<Advanced>, err: Option<M.Error>, ghost committed: seq<Advance>, ghost published: seq<Record<M.Body>>)
      requires Valid()
      modifies this
      ensures Valid() && M.Later(old(store), store)
      ensures err.None? ==> forall a :: a in advances ==> a in committed
      ensures (forall a :: a in advances ==> There(old(store), a.tenant, a.membership)) ==> err.None?
      ensures forall a :: a in committed ==>
                a in advances && There(store, a.tenant, a.membership) && store.rows[a.membership].version > a.above
      ensures forall a, b :: a in advances && b in advances && a.tenant == b.tenant ==> (a in committed <==> b in committed)
      ensures Answers(done, committed)
      ensures AllPastAbove(committed, published) && forall e :: e in published ==> e in store.events
      ensures (forall k :: others(k) == []) ==>
                && store.rows == RowsAfter(old(store).rows, committed) && store.events == old(store).events + published
                && (err.None? ==> store.rows == RowsAfter(old(store).rows, advances))
    {
      var byTenant, tenants := TenantsInOrder(advances);
      ghost var visited;
      done, err, committed, published, visited := AdvanceTenants(advances, byTenant, tenants, others, forall k :: others(k) == []);
      ProgressSays(old(store), store, advances, visited, committed, published, err.None?, forall k :: others(k) == []);
    }

    /**
     The recovery route: the findings of a reconciliation, made at some earlier instant from what a
     consumer reported, become advances. Whether it succeeds or stops half way, the events it published
     give no later copy of that consumer access the copy does not hold.
     */
    method Recover(ghost view: map<Id, Record<M.Body>>, findings: seq<Finding>, reason: string, others: nat -> seq<M.Op>)
      returns (done: seq<Advanced>, err: Option<M.Error>, ghost published: seq<Record<M.Body>>)
      requires Valid() && forall f :: f in findings && f.state.Some? ==> Reported(view, f.membership) && f.projected == view[f.membership].version
      modifies this
      ensures Valid() && M.Later(old(store), store) && forall e :: e in published ==> e in store.events
      ensures err.None? ==> forall f :: f in findings && Ahead(f) ==>
                f.membership in store.rows && store.rows[f.membership].version > f.projected
      ensures forall now, delivered, m :: MovedOn(view, now) && (forall e :: e in delivered ==> e in published)
                ==> (Reported(DeliverAll(now, delivered), m) ==> Reported(now, m))
    {
      var advances := AdvancesOf(findings);
      ghost var committed;
      done, err, published := [], None, [];
      LaterReflexive(store);
      if |advances| > 0 {
        done, err, committed, published := AdvanceVersions(advances, reason, others);
        forall now, delivered, m | MovedOn(view, now) && (forall e :: e in delivered ==> e in published)
          ensures Reported(DeliverAll(now, delivered), m) ==> Reported(now, m)
        {
          AdvanceNeverWidens(view, now, committed, published, delivered, m);
        }
        forall f | err.None? && f in findings && Ahead(f)
          ensures f.membership in store.rows && store.rows[f.membership].version > f.projected
        {
          assert AdvanceOf(f) in advances;
        }
      } else {
        forall now, delivered, m | MovedOn(view, now) && (forall e :: e in delivered ==> e in published)
          ensures Reported(DeliverAll(now, delivered), m) ==> Reported(now, m)
        {
          AdvanceNeverWidens(view, now, [], [], delivered, m);
        }
        assert forall f :: f in findings && Ahead(f) ==> AdvanceOf(f) in advances;
      }
    }

    /** Tenant after Tenant, until one is refused. */
    method AdvanceTenants(ghost advances: seq<Advance>, byTenant: map<Id, seq<Advance>>, tenants: seq<Id>, others: nat -> seq<M.Op>, ghost quiet: bool)
      returns (done: seq<Advanced>, err: Option<M.Error>, ghost committed: seq<Advance>, ghost published: seq<Record<M.Body>>, ghost visited: seq<Id>)
      requires Valid() && (quiet ==> forall k :: others(k) == [])
      requires forall i :: 0 <= i < |tenants| ==> tenants[i] in byTenant && byTenant[tenants[i]] == OfTenant(advances, tenants[i])
      modifies this
      ensures Reached(old(store), advances, visited, committed, published, quiet) && Answers(done, committed)
      ensures err.None? ==> visited == tenants
      ensures err.Some? ==> Unfound(advances, old(store))
    {
      done, err, committed, published, visited := [], None, [], [], [];
      LaterReflexive(store);
      NothingCommitted(store.rows);
      var t := 0;
      while t < |tenants| && err.None?
        invariant t <= |tenants| && (err.None? ==> visited == tenants[..t])
        invariant err.Some? ==> Unfound(advances, old(store))
        invariant Reached(old(store), advances, visited, committed, published, quiet) && Answers(done, committed)
        decreases |tenants| - t
      {
        done, err, committed, published, visited :=
          AdvanceNext(old(store), advances, visited, tenants[t], byTenant[tenants[t]], done, committed, published, others(t), quiet);
        t := t + 1;
      }
    }

    /** Where the transactions so far have come to. */
    ghost predicate Reached(start: M.Store, advances: seq<Advance>, tenants: seq<Id>, committed: seq<Advance>,
                            published: seq<Record<M.Body>>, quiet: bool)
      reads this
    {
      && Valid() && M.Later(start, store)
      && Progress(advances, tenants, committed, published, store)
      && (quiet ==> Exactly(start, committed, published, store))
    }

    /** Other requests, then the transaction of one more Tenant, in the order of its Memberships. */
    method AdvanceNext(ghost start: M.Store, ghost advances: seq<Advance>, ghost tenants: seq<Id>, tenant: Id, unsorted: seq<Advance>,
                       done: seq<Advanced>, ghost before: seq<Advance>, ghost said: seq<Record<M.Body>>, others: seq<M.Op>, ghost quiet: bool)
      returns (told: seq<Advanced>, err: Option<M.Error>, ghost committed: seq<Advance>, ghost published: seq<Record<M.Body>>, ghost visited: seq<Id>)
      requires Reached(start, advances, tenants, before, said, quiet) && Answers(done, before) && (quiet ==> others == [])
      requires unsorted == OfTenant(advances, tenant)
      modifies this
      ensures Reached(start, advances, visited, committed, published, quiet) && Answers(told, committed)
      ensures err.None? ==> visited == tenants + [tenant]
      ensures err.Some? ==> Unfound(advances, start)
    {
      told, err, committed, published, visited := done, None, before, said, tenants;
      OfTenantHolds(advances, tenant);
      var batch := SortSlice(unsorted, (a: Advance) => a.membership);
      SameElements(batch, unsorted);
      Interleave(others);
      ghost var reached := store;
      M.LaterTransitive(start, old(store), reached);
      ProgressLater(advances, tenants, before, said, old(store), reached);
      var r := AdvanceTenant(tenant, batch);
      if r.Err? {
        ghost var a :| a in batch && !Found(reached.rows, a);
        if Found(start.rows, a) {
          FoundLater(start, reached, a);
        }
        err := Some(r.error);
        return;
      }
      M.LaterTransitive(start, reached, store);
      ProgressMore(advances, tenants, before, said, reached, store, tenant, batch);
      if quiet {
        ExactlyMore(start, before, said, reached, store, batch);
      }
      AnswersAppend(done, before, r.value, batch);
      told, visited := done + r.value, tenants + [tenant];
      committed, published := before + batch, said + store.events[|reached.events|..];
    }
  }

  /** What a reconciliation found of one reported Membership; `state` is absent where authority does not hold it. */
  datatype Finding = Finding(membership: Id, tenant: Id, state: Option<M.State>, projected: int, authoritative: int)

  ghost predicate Ahead(f: Finding) {
    f.state.Some? && f.projected > f.authoritative
  }

  ghost function AdvanceOf(f: Finding): Advance {
    Advance(f.membership, f.tenant, f.projected)
  }

  /** The advances of exactly the findings that ask for one. */
  ghost predicate Asks(advances: seq<Advance>, findings: seq<Finding>) {
    forall a :: a in advances <==> exists f :: f in findings && Ahead(f) && a == AdvanceOf(f)
  }

  lemma AsksOneMore(advances: seq<Advance>, findings: seq<Finding>, f: Finding)
    requires Asks(advances, findings)
    ensures Asks(if Ahead(f) then advances + [AdvanceOf(f)] else advances, findings + [f])
  {
    forall a ensures (exists g :: g in findings + [f] && Ahead(g) && a == AdvanceOf(g)) <==> a in advances || (Ahead(f) && a == AdvanceOf(f)) {
      if a in advances {
        var g :| g in findings && Ahead(g) && a == AdvanceOf(g);
        assert g in findings + [f];
      }
      if Ahead(f) && a == AdvanceOf(f) {
        assert f in findings + [f];
      }
    }
  }

  method AdvancesOf(findings: seq<Finding>) returns (advances: seq<Advance>)
    ensures Asks(advances, findings)
  {
    advances := [];
    for k := 0 to |findings|
      invariant Asks(advances, findings[..k])
    {
      var f := findings[k];
      AsksOneMore(advances, findings[..k], f);
      assert findings[..k + 1] == findings[..k] + [f];
      if f.state.Some? && f.projected > f.authoritative {
        advances := advances + [Advance(f.membership, f.tenant, f.projected)];
      }
    }
    assert findings[..|findings|] == findings;
  }

  method AllAcceptable(advances: seq<Advance>) returns (ok: bool)
    ensures ok <==> forall a :: a in advances ==> Named(a)
  {
    for k := 0 to |advances|
      invariant forall a :: a in advances[..k] ==> Named(a)
    {
      if !Acceptable(advances[k]) {
        assert advances[k] in advances;
        return false;
      }
      assert forall x :: x in advances[..k + 1] <==> x in advances[..k] || x == advances[k];
    }
    assert advances[..|advances|] == advances;
    return true;
  }

  /** Each Tenant's advances, and the Tenants in order. */
  method TenantsInOrder(advances: seq<Advance>) returns (byTenant: map<Id, seq<Advance>>, tenants: seq<Id>)
    ensures forall i :: 0 <= i < |tenants| ==> tenants[i] in byTenant && byTenant[tenants[i]] == OfTenant(advances, tenants[i])
    ensures forall a :: a in advances ==> a.tenant in tenants
  {
    var unsorted;
    byTenant, unsorted := Partition(advances);
    tenants := SortSlice(unsorted, (t: Id) => t);
    SameElements(tenants, unsorted);
    EveryTenant(advances, byTenant, unsorted, tenants);
    forall i | 0 <= i < |tenants| ensures tenants[i] in byTenant && byTenant[tenants[i]] == OfTenant(advances, tenants[i]) {
      assert tenants[i] in tenants;
    }
  }

  /** No advance is of a Tenant that was not visited. */
  lemma EveryTenant(advances: seq<Advance>, byTenant: map<Id, seq<Advance>>, tenants: seq<Id>, sorted: seq<Id>)
    requires Partitions(advances, byTenant, tenants) && forall t :: t in sorted <==> t in tenants
    ensures forall a :: a in advances ==> a.tenant in sorted
  {
    forall a | a in advances ensures a.tenant in sorted {
      OfTenantHolds(advances, a.tenant);
      assert a in OfTenant(advances, a.tenant);
    }
  }

  // ----- what a run of advances has committed

  /** What the Tenants done so far committed, whatever ran in between. */
  ghost predicate Progress(advances: seq<Advance>, tenants: seq<Id>, committed: seq<Advance>, published: seq<Record<M.Body>>, store: M.Store) {
    && (forall a :: a in committed <==> a in advances && a.tenant in tenants)
    && (forall a :: a in committed ==> Past(store, a))
    && AllPastAbove(committed, published) && (forall e :: e in published ==> e in store.events)
  }

  ghost predicate Past(store: M.Store, a: Advance) {
    Found(store.rows, a) && store.rows[a.membership].version > a.above
  }

  /** The report names a Membership that was not there, in the Tenant it names, when it came. */
  ghost predicate Unfound(advances: seq<Advance>, store: M.Store) {
    exists a :: a in advances && !Found(store.rows, a)
  }

  /** Exactly what was committed, when nothing ran in between. */
  ghost predicate Exactly(start: M.Store, committed: seq<Advance>, published: seq<Record<M.Body>>, store: M.Store) {
    store.rows == RowsAfter(start.rows, committed) && store.events == start.events + published
  }

  /** What the Tenants done so far amount to; all of them, when each was done. */
  lemma ProgressSays(start: M.Store, store: M.Store, advances: seq<Advance>, tenants: seq<Id>, committed: seq<Advance>,
                     published: seq<Record<M.Body>>, all: bool, quiet: bool)
    requires Progress(advances, tenants, committed, published, store) && (quiet ==> Exactly(start, committed, published, store))
    requires all ==> forall a :: a in advances ==> a.tenant in tenants
    ensures all ==> forall a :: a in advances ==> a in committed
    ensures forall a :: a in committed ==>
              a in advances && There(store, a.tenant, a.membership) && store.rows[a.membership].version > a.above
    ensures forall a, b :: a in advances && b in advances && a.tenant == b.tenant ==> (a in committed <==> b in committed)
    ensures quiet ==> store.rows == RowsAfter(start.rows, committed) && (all ==> store.rows == RowsAfter(start.rows, advances))
  {
    if all {
      RowsAfterIgnoresOrder(start.rows, committed, advances);
    }
  }

  lemma ProgressLater(advances: seq<Advance>, tenants: seq<Id>, committed: seq<Advance>, published: seq<Record<M.Body>>, s: M.Store, s': M.Store)
    requires Progress(advances, tenants, committed, published, s) && M.Later(s, s')
    ensures Progress(advances, tenants, committed, published, s')
  {
    forall a | a in committed ensures Past(s', a) {
      assert Past(s, a);
      assert M.Evolves(s.rows[a.membership], s'.rows[a.membership]);
    }
  }

  /** Once applied, each advance's Membership is past its Above. */
  lemma AppliedIsPast(before: M.Store, batch: seq<Advance>, after: M.Store, a: Advance)
    requires Applied(before, batch, |batch|, after) && a in batch && Found(before.rows, a)
    ensures Past(after, a)
  {
    assert batch[..|batch|] == batch;
    TargetIsLargest(batch, a.membership, before.rows[a.membership].version);
  }

  lemma AllPastMore(committed: seq<Advance>, published: seq<Record<M.Body>>, batch: seq<Advance>, more: seq<Record<M.Body>>)
    requires AllPastAbove(committed, published) && AllPastAbove(batch, more)
    ensures AllPastAbove(committed + batch, published + more)
  {
    forall e | e in published + more ensures PastAbove(committed + batch, e) {
      if e in published {
        var a :| a in committed && a.membership == e.key && e.version == a.above + 1;
        assert a in committed + batch;
      } else {
        var a :| a in batch && a.membership == e.key && e.version == a.above + 1;
        assert a in committed + batch;
      }
    }
  }

  lemma ProgressMore(advances: seq<Advance>, tenants: seq<Id>, committed: seq<Advance>, published: seq<Record<M.Body>>,
                     before: M.Store, after: M.Store, tenant: Id, batch: seq<Advance>)
    requires Progress(advances, tenants, committed, published, before) && M.Later(before, after)
    requires forall a :: a in batch <==> a in advances && a.tenant == tenant
    requires Applied(before, batch, |batch|, after) && forall a :: a in batch ==> Found(before.rows, a)
    ensures Progress(advances, tenants + [tenant], committed + batch, published + after.events[|before.events|..], after)
  {
    ProgressLater(advances, tenants, committed, published, before, after);
    forall a | a in batch ensures Past(after, a) {
      AppliedIsPast(before, batch, after, a);
    }
    AllPastMore(committed, published, batch, after.events[|before.events|..]);
    assert forall e :: e in after.events[|before.events|..] ==> e in after.events;
  }

  lemma ExactlyMore(start: M.Store, committed: seq<Advance>, published: seq<Record<M.Body>>, before: M.Store, after: M.Store, batch: seq<Advance>)
    requires Exactly(start, committed, published, before) && Applied(before, batch, |batch|, after)
    ensures Exactly(start, committed + batch, published + after.events[|before.events|..], after)
  {
    assert batch[..|batch|] == batch;
    RowsAfterAppend(start.rows, committed, batch);
    assert after.events == before.events + after.events[|before.events|..];
  }

  lemma FoundLater(s: M.Store, s': M.Store, a: Advance)
    requires M.Later(s, s') && Found(s.rows, a)
    ensures Found(s'.rows, a)
  {
    assert M.Evolves(s.rows[a.membership], s'.rows[a.membership]);
  }

  /** An event published since s is above every version s held. */
  lemma LaterEventIsNewer(s: M.Store, s': M.Store, n: nat)
    requires M.Valid(s) && M.Valid(s') && M.Later(s, s')
    requires |s.events| <= n < |s'.events| && s'.events[n].key in s.rows
    ensures s'.events[n].version > s.rows[s'.events[n].key].version
  {
    var x := M.CurrentEvent(s, s'.events[n].key);
    var i :| 0 <= i < |s.events| && s.events[i] == x;
    M.Unfold(s');
  }

  /** A report sent again publishes nothing: every Membership it names is already past its Above. */
  lemma SentAgainPublishesNothing(s: M.Store, s': M.Store, advances: seq<Advance>)
    requires M.Valid(s) && M.Valid(s') && M.Later(s, s') && Applied(s, advances, |advances|, s')
    requires forall a :: a in advances && a.membership in s.rows ==> s.rows[a.membership].version > a.above
    ensures s' == s
  {
    assert advances[..|advances|] == advances;
    forall m | m in s.rows ensures Target(advances, m, s.rows[m].version) == s.rows[m].version {
      TargetIsLargest(advances, m, s.rows[m].version);
    }
    var n := |s.events|;
    if n < |s'.events| {
      var e := s'.events[n];
      assert s'.events[n..][0] == e;
      assert e.key in s'.rows by { M.Unfold(s'); }
      LaterEventIsNewer(s, s', n);
      M.Unfold(s');
      assert false;
    }
  }

  lemma LaterReflexive(s: M.Store)
    ensures M.Later(s, s)
  {
  }

  lemma NothingCommitted(rows: map<Id, M.Row>)
    ensures RowsAfter(rows, []) == rows
  {
  }

  lemma EarlierIds(a: seq<Record<M.Body>>, b: seq<Record<M.Body>>, next: Id)
    requires a <= b && forall e :: e in b ==> e.body.eventId < next
    ensures forall e :: e in a ==> e.body.eventId < next
  {
    assert forall e :: e in a ==> e in b;
  }
}
