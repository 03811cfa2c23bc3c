/**
 The authoritative Membership: its state machine, the versioned row, and the event each change
 commits with (internal/membership/state.go, service.go, advance.go).
 */
module Membership {
  import opened Base
  import opened Projection

  datatype State = Active | Suspended | Revoked

  datatype Action = Grant | Suspend | Revoke | Restore

  datatype Error =
    | Invalid
    | NotFound
    | RevokedIsTerminal
    | TransitionRefused
    | VersionMismatch
    | ReasonRequired
    | ActiveElsewhere   // membership_active_unique refused the write
    | DatabaseFault

  datatype Row = Row(principal: Id, tenant: Id, workspace: Id, subjectType: string, status: State, version: int)

  /** Who caused an event. A history annotation: the source keeps no such column. */
  datatype Origin = Direct | BatchItem(batch: Id, position: nat)

  datatype Body = Body(eventId: Id, row: Row, action: Action, origin: Origin)

  datatype Store = Store(rows: map<Id, Row>, events: seq<Record<Body>>)

  const EMPTY := Store(map[], [])

  // ----- the state machine

  function Resolve(action: Action, current: State): Result<State, Error> {
    match action
    case Grant => Ok(Active)
    case _ =>
      if current == Revoked then Err(RevokedIsTerminal)
      else match action
        case Suspend => if current == Active then Ok(Suspended) else Err(TransitionRefused)
        case Revoke => Ok(Revoked)
        case Restore => if current == Suspended then Ok(Active) else Err(TransitionRefused)
  }

  datatype Command = Command(membership: Id, expected: int, reason: string)

  function Validate(action: Action, cmd: Command): Option<Error> {
    if cmd.membership == NIL || cmd.expected <= 0 then Some(Invalid)
    else if action == Revoke && Blank(cmd.reason) then Some(ReasonRequired)
    else None
  }

  /** The state is checked before the version. */
  function Decide(action: Action, current: Row, expected: int): Result<State, Error> {
    var next := Resolve(action, current.status);
    if next.Err? then next
    else if current.version != expected then Err(VersionMismatch)
    else next
  }

  // ----- the tables

  /** A row of another Tenant is absent under Row-Level Security. */
  function Load(s: Store, tenant: Id, m: Id): Result<Row, Error> {
    if m in s.rows && s.rows[m].tenant == tenant then Ok(s.rows[m]) else Err(NotFound)
  }

  function Slot(r: Row): (Id, Id, Id, string) {
    (r.principal, r.tenant, if r.workspace == NIL then r.tenant else r.workspace, r.subjectType)
  }

  /** membership_active_unique would refuse `row` as Membership m. */
  predicate SlotTaken(rows: map<Id, Row>, m: Id, row: Row) {
    row.status == Active
    && exists k | k in rows :: k != m && rows[k].status == Active && Slot(rows[k]) == Slot(row)
  }

  predicate EventExists(s: Store, eventId: Id) {
    exists e | e in s.events :: e.body.eventId == eventId
  }

  /** The row and the event that publishes it are written together. */
  function Commit(s: Store, m: Id, row: Row, action: Action, eventId: Id, origin: Origin): Store {
    Store(s.rows[m := row], s.events + [Record(m, row.version, Body(eventId, row, action, origin))])
  }

  function Write(s: Store, m: Id, row: Row, action: Action, eventId: Id, origin: Origin): Result<Store, Error> {
    if SlotTaken(s.rows, m, row) then Err(ActiveElsewhere)
    else if EventExists(s, eventId) then Err(DatabaseFault)
    else Ok(Commit(s, m, row, action, eventId, origin))
  }

  function TransitionWithin(s: Store, tenant: Id, action: Action, cmd: Command, eventId: Id, origin: Origin)
    : Result<Store, Error>
  {
    if Validate(action, cmd).Some? then Err(Validate(action, cmd).value)
    else
      var current := Load(s, tenant, cmd.membership);
      if current.Err? then Err(current.error)
      else
        var next := Decide(action, current.value, cmd.expected);
        if next.Err? then Err(next.error)
        else
          var row := current.value.(status := next.value, version := current.value.version + 1);
          Write(s, cmd.membership, row, action, eventId, origin)
  }

  datatype GrantRequest = GrantRequest(principal: Id, tenant: Id, workspace: Id, subjectType: string,
                                       provenance: string, validFrom: Option<int>, validUntil: Option<int>)

  predicate GrantValid(req: GrantRequest, bound: Id) {
    && req.principal != NIL
    && (req.subjectType == "human" || req.subjectType == "workload")
    && req.provenance != ""
    && req.validFrom.Some?
    && (req.validUntil.Some? ==> req.validUntil.value > req.validFrom.value)
    && (req.tenant != NIL ==> req.tenant == bound)
  }

  /** A new Membership starts active at version 1. */
  function GrantWithin(s: Store, tenant: Id, req: GrantRequest, m: Id, eventId: Id): Result<Store, Error> {
    if !GrantValid(req, tenant) then Err(Invalid)
    else if m in s.rows then Err(DatabaseFault)
    else
      var row := Row(req.principal, tenant, req.workspace, req.subjectType, Active, 1);
      Write(s, m, row, Grant, eventId, Direct)
  }

  function ActionFor(status: State): Action {
    match status
    case Suspended => Suspend
    case Revoked => Revoke
    case Active => Restore
  }

  /** Moves a version past `above`, and publishes the state it finds; a row already past it is left alone. */
  function AdvanceWithin(s: Store, tenant: Id, m: Id, above: int, eventId: Id): Result<Store, Error> {
    var current := Load(s, tenant, m);
    if current.Err? then Err(current.error)
    else if current.value.version > above then Ok(s)
    else if EventExists(s, eventId) then Err(DatabaseFault)
    else
      var row := current.value.(version := above + 1);
      Ok(Commit(s, m, row, ActionFor(row.status), eventId, Direct))
  }

  // ----- histories

  datatype Op =
    | OpGrant(tenant: Id, req: GrantRequest, m: Id, eventId: Id)
    | OpTransition(tenant: Id, action: Action, cmd: Command, eventId: Id)
    | OpAdvance(tenant: Id, m: Id, above: int, eventId: Id)

  /** The commands are suspend, restore and revoke: no caller transitions with the grant action. */
  function Attempt(s: Store, op: Op): Result<Store, Error> {
    match op
    case OpGrant(tenant, req, m, eventId) => GrantWithin(s, tenant, req, m, eventId)
    case OpTransition(tenant, action, cmd, eventId) =>
      if action == Grant then Err(Invalid) else TransitionWithin(s, tenant, action, cmd, eventId, Direct)
    case OpAdvance(tenant, m, above, eventId) => AdvanceWithin(s, tenant, m, above, eventId)
  }

  /** A refused transaction rolls back whole. */
  function Apply(s: Store, op: Op): Store {
    var r := Attempt(s, op);
    if r.Ok? then r.value else s
  }

  function Run(s: Store, ops: seq<Op>): Store {
    if ops == [] then s else Apply(Run(s, ops[..|ops| - 1]), ops[|ops| - 1])
  }

  // ----- what every history keeps

  ghost predicate Current(s: Store, m: Id, e: Record<Body>) requires m in s.rows {
    e in s.events && e.key == m && e.body.row == s.rows[m]
  }

  /** No event is ahead of its row, and each describes the row at the version it carries. */
  ghost predicate Describes(s: Store) {
    forall e :: e in s.events ==>
      e.key in s.rows && 1 <= e.version <= s.rows[e.key].version && e.version == e.body.row.version
  }

  /** Every row is published as it stands. */
  ghost predicate Published(s: Store) {
    forall m :: m in s.rows ==> exists e :: Current(s, m, e)
  }

  ghost predicate EventIdsUnique(events: seq<Record<Body>>) {
    forall i, j :: 0 <= i < j < |events| ==> events[i].body.eventId != events[j].body.eventId
  }

  /** membership_active_unique. */
  ghost predicate SlotsUnique(rows: map<Id, Row>) {
    forall a, b :: a in rows && b in rows && a != b && rows[a].status == Active && rows[b].status == Active
      ==> Slot(rows[a]) != Slot(rows[b])
  }

  datatype Part = InOrder | Described | Told | IdsUnique | SlotsFree

  ghost predicate Sound(s: Store, part: Part) {
    match part
    case InOrder => Increasing(s.events)
    case Described => Describes(s)
    case Told => Published(s)
    case IdsUnique => EventIdsUnique(s.events)
    case SlotsFree => SlotsUnique(s.rows)
  }

  /** What every history keeps, part by part: a proof that only passes it along unfolds none of them. */
  ghost predicate Valid(s: Store) {
    forall part: Part :: Sound(s, part)
  }

  lemma Unfold(s: Store)
    requires Valid(s)
    ensures Increasing(s.events) && Describes(s) && Published(s) && EventIdsUnique(s.events) && SlotsUnique(s.rows)
  {
    assert Sound(s, InOrder) && Sound(s, Described) && Sound(s, Told) && Sound(s, IdsUnique) && Sound(s, SlotsFree);
  }

  lemma Fold(s: Store)
    requires Increasing(s.events) && Describes(s) && Published(s) && EventIdsUnique(s.events) && SlotsUnique(s.rows)
    ensures Valid(s)
  {
    forall part: Part ensures Sound(s, part) {
      match part
      case _ =>
    }
  }

  /** What a change of one row may do to it. */
  ghost predicate Evolves(before: Row, after: Row) {
    && before == after.(status := before.status, version := before.version)
    && (before == after || before.version < after.version)
    && (before.status == Revoked ==> after.status == Revoked)
  }

  /** s' is a later state of s: no row is lost, a version never falls, a published event is kept. */
  ghost predicate Later(s: Store, s': Store) {
    && s.events <= s'.events
    && forall m :: m in s.rows ==> m in s'.rows && Evolves(s.rows[m], s'.rows[m])
  }

  lemma LaterTransitive(a: Store, b: Store, c: Store)
    requires Later(a, b) && Later(b, c)
    ensures Later(a, c)
  {
    forall m | m in a.rows ensures m in c.rows && Evolves(a.rows[m], c.rows[m]) {
      assert Evolves(a.rows[m], b.rows[m]);
      assert Evolves(b.rows[m], c.rows[m]);
    }
  }

  /** A row is written at a version above the one it had. */
  ghost predicate Rises(s: Store, m: Id, row: Row) {
    1 <= row.version && (m in s.rows ==> s.rows[m].version < row.version && Evolves(s.rows[m], row))
  }

  lemma CommitKeepsOrder(s: Store, m: Id, row: Row, body: Body)
    requires Increasing(s.events) && Describes(s) && Rises(s, m, row)
    ensures Increasing(s.events + [Record(m, row.version, body)])
  {
    forall i | 0 <= i < |s.events| && s.events[i].key == m ensures s.events[i].version < row.version {
      assert s.events[i] in s.events;
    }
  }

  lemma CommitKeepsPublished(s: Store, m: Id, row: Row, body: Body)
    requires Published(s) && body.row == row
    ensures Published(Store(s.rows[m := row], s.events + [Record(m, row.version, body)]))
  {
    var s' := Store(s.rows[m := row], s.events + [Record(m, row.version, body)]);
    assert Current(s', m, Record(m, row.version, body));
    forall k | k in s'.rows ensures exists x :: Current(s', k, x) {
      if k != m {
        var x :| Current(s, k, x);
        assert Current(s', k, x);
      }
    }
  }

  lemma CommitKeepsIds(s: Store, e: Record<Body>)
    requires EventIdsUnique(s.events) && !EventExists(s, e.body.eventId)
    ensures EventIdsUnique(s.events + [e])
  {
    forall i | 0 <= i < |s.events| ensures s.events[i].body.eventId != e.body.eventId {
      assert s.events[i] in s.events;
    }
  }

  lemma CommitKeepsDescribes(s: Store, m: Id, row: Row, body: Body)
    requires Describes(s) && Rises(s, m, row) && body.row == row
    ensures Describes(Store(s.rows[m := row], s.events + [Record(m, row.version, body)]))
  {
  }

  lemma CommitKeepsSlots(rows: map<Id, Row>, m: Id, row: Row)
    requires SlotsUnique(rows) && !SlotTaken(rows, m, row)
    ensures SlotsUnique(rows[m := row])
  {
  }

  /** Writing a row at a new version with its event keeps everything Valid says. */
  lemma CommitKeeps(s: Store, m: Id, row: Row, action: Action, eventId: Id, origin: Origin)
    requires Valid(s) && Rises(s, m, row)
    requires !SlotTaken(s.rows, m, row) && !EventExists(s, eventId)
    ensures Valid(Commit(s, m, row, action, eventId, origin))
    ensures Later(s, Commit(s, m, row, action, eventId, origin))
  {
    var body := Body(eventId, row, action, origin);
    Unfold(s);
    CommitKeepsOrder(s, m, row, body);
    CommitKeepsDescribes(s, m, row, body);
    CommitKeepsPublished(s, m, row, body);
    CommitKeepsIds(s, Record(m, row.version, body));
    CommitKeepsSlots(s.rows, m, row);
    Fold(Commit(s, m, row, action, eventId, origin));
  }

  /** An advance keeps the status, so it can take no slot from anybody. */
  lemma AdvanceTakesNoSlot(s: Store, m: Id, row: Row)
    requires Valid(s) && m in s.rows && row == s.rows[m].(version := row.version)
    ensures !SlotTaken(s.rows, m, row)
  {
    Unfold(s);
  }

  lemma VersionPositive(s: Store, m: Id)
    requires Valid(s) && m in s.rows
    ensures 1 <= s.rows[m].version
  {
    Unfold(s);
    var e :| Current(s, m, e);
    assert e in s.events;
  }

  /** The event that published a row as it stands. */
  lemma CurrentEvent(s: Store, m: Id) returns (e: Record<Body>)
    requires Valid(s) && m in s.rows
    ensures Current(s, m, e) && e.version == s.rows[m].version
  {
    Unfold(s);
    e :| Current(s, m, e);
  }

  /** What a transition writes when it succeeds. */
  lemma TransitionWrites(s: Store, tenant: Id, action: Action, cmd: Command, eventId: Id, origin: Origin)
    requires TransitionWithin(s, tenant, action, cmd, eventId, origin).Ok?
    ensures cmd.membership in s.rows && s.rows[cmd.membership].tenant == tenant
    ensures s.rows[cmd.membership].version == cmd.expected && Resolve(action, s.rows[cmd.membership].status).Ok?
    ensures
      var was := s.rows[cmd.membership];
      var row := was.(status := Resolve(action, was.status).value, version := was.version + 1);
      && !SlotTaken(s.rows, cmd.membership, row) && !EventExists(s, eventId)
      && TransitionWithin(s, tenant, action, cmd, eventId, origin).value
         == Commit(s, cmd.membership, row, action, eventId, origin)
  {
  }

  lemma TransitionKeeps(s: Store, tenant: Id, action: Action, cmd: Command, eventId: Id, origin: Origin, s': Store)
    requires Valid(s) && action != Grant
    requires TransitionWithin(s, tenant, action, cmd, eventId, origin) == Ok(s')
    ensures Valid(s') && Later(s, s')
  {
    TransitionWrites(s, tenant, action, cmd, eventId, origin);
    VersionPositive(s, cmd.membership);
    var row := s.rows[cmd.membership];
    var next := Resolve(action, row.status).value;
    CommitKeeps(s, cmd.membership, row.(status := next, version := row.version + 1), action, eventId, origin);
  }

  lemma ApplyKeeps(s: Store, op: Op)
    requires Valid(s)
    ensures Valid(Apply(s, op)) && Later(s, Apply(s, op))
  {
    if Attempt(s, op).Ok? {
      match op {
        case OpGrant(tenant, req, m, eventId) =>
          var row := Row(req.principal, tenant, req.workspace, req.subjectType, Active, 1);
          CommitKeeps(s, m, row, Grant, eventId, Direct);
        case OpTransition(tenant, action, cmd, eventId) =>
          TransitionKeeps(s, tenant, action, cmd, eventId, Direct, Apply(s, op));
        case OpAdvance(tenant, m, above, eventId) =>
          var row := s.rows[m].(version := above + 1);
          if s.rows[m].version <= above {
            VersionPositive(s, m);
            AdvanceTakesNoSlot(s, m, row);
            CommitKeeps(s, m, row, ActionFor(row.status), eventId, Direct);
          }
      }
    }
  }

  lemma {:induction false} RunKeeps(s: Store, ops: seq<Op>)
    requires Valid(s)
    ensures Valid(Run(s, ops)) && Later(s, Run(s, ops))
  {
    if ops != [] {
      var mid := Run(s, ops[..|ops| - 1]);
      RunKeeps(s, ops[..|ops| - 1]);
      ApplyKeeps(mid, ops[|ops| - 1]);
      LaterTransitive(s, mid, Apply(mid, ops[|ops| - 1]));
    }
  }

  lemma EmptyValid()
    ensures Valid(EMPTY)
  {
    Fold(EMPTY);
  }

  // ----- main results

  /** A successful write of m changes m alone and appends one event describing it. */
  ghost predicate WritesOne(s: Store, s': Store, m: Id) {
    && m in s'.rows
    && s'.rows == s.rows[m := s'.rows[m]]
    && |s'.events| == |s.events| + 1 && s'.events[..|s.events|] == s.events
    && s'.events[|s.events|].key == m
    && s'.events[|s.events|].body.row == s'.rows[m]
    && s'.events[|s.events|].version == s'.rows[m].version
    && (m in s.rows ==> s.rows[m].version < s'.rows[m].version)
  }

  /**
   Along every history, a committed operation either changes nothing or raises the version of one
   Membership and appends exactly one event, at the new version, describing the new row.
   */
  lemma OneEventPerChange(ops: seq<Op>, op: Op)
    ensures
      var s := Run(EMPTY, ops);
      Apply(s, op) == s || exists m :: WritesOne(s, Apply(s, op), m)
  {
    var s := Run(EMPTY, ops);
    EmptyValid();
    RunKeeps(EMPTY, ops);
    if Apply(s, op) != s {
      var m := match op case OpGrant(_, _, m, _) => m case OpTransition(_, _, cmd, _) => cmd.membership case OpAdvance(_, m, _, _) => m;
      assert WritesOne(s, Apply(s, op), m);
    }
  }

  /** In a Valid store one event carries each version of a Membership, and it describes the row at that version. */
  lemma OneEventPerVersion(s: Store, a: Record<Body>, b: Record<Body>)
    requires Valid(s)
    requires a in s.events && b in s.events && a.key == b.key && a.version == b.version
    ensures a == b
  {
    Unfold(s);
    var i :| 0 <= i < |s.events| && s.events[i] == a;
    var j :| 0 <= j < |s.events| && s.events[j] == b;
  }

  /**
   A version determines its row along every history: two states of one history that hold a
   Membership at the same version hold the same row, and the event that carries that version
   describes it.
   */
  lemma VersionDeterminesRow(ops: seq<Op>, more: seq<Op>, m: Id)
    requires m in Run(EMPTY, ops).rows
    ensures
      var s := Run(EMPTY, ops);
      var s' := Run(s, more);
      && m in s'.rows
      && s.rows[m].version <= s'.rows[m].version
      && (s.rows[m].version == s'.rows[m].version <==> s.rows[m] == s'.rows[m])
      && forall e :: e in s'.events && e.key == m && e.version == s.rows[m].version ==> e.body.row == s.rows[m]
  {
    EmptyValid();
    RunKeeps(EMPTY, ops);
    RunKeeps(Run(EMPTY, ops), more);
    EventsOfVersion(Run(EMPTY, ops), Run(Run(EMPTY, ops), more), m);
  }

  lemma EventsOfVersion(s: Store, s': Store, m: Id)
    requires Valid(s) && Valid(s') && Later(s, s') && m in s.rows
    ensures forall e :: e in s'.events && e.key == m && e.version == s.rows[m].version ==> e.body.row == s.rows[m]
  {
    var x := CurrentEvent(s, m);
    assert x in s'.events;
    forall e | e in s'.events && e.key == m && e.version == s.rows[m].version ensures e.body.row == s.rows[m] {
      OneEventPerVersion(s', e, x);
    }
  }

  /** The payloads a consumer holds. */
  function Rows(view: map<Id, Record<Body>>): map<Id, Row> {
    map k | k in view :: view[k].body.row
  }

  /** The last event of a Membership is its row. */
  lemma LatestIsCurrent(s: Store, m: Id)
    requires Valid(s)
    ensures m in s.rows <==> Latest(s.events, m).Some?
    ensures m in s.rows ==> Latest(s.events, m).value.body.row == s.rows[m]
  {
    Unfold(s);
    LatestIsHighest(s.events, m);
    if m in s.rows {
      var x := CurrentEvent(s, m);
      assert x in s.events;
    }
  }

  lemma ConvergesAt(s: Store, delivered: seq<Record<Body>>, m: Id)
    requires Valid(s)
    requires forall e :: e in delivered <==> e in s.events
    ensures
      var view := DeliverAll(map[], delivered);
      (m in view <==> m in s.rows) && (m in view ==> view[m].body.row == s.rows[m])
  {
    Unfold(s);
    Converges(s.events, delivered, m);
    LatestIsCurrent(s, m);
  }

  lemma ConsumerConvergesFrom(s: Store, delivered: seq<Record<Body>>)
    requires Valid(s)
    requires forall e :: e in delivered <==> e in s.events
    ensures Rows(DeliverAll(map[], delivered)) == s.rows
  {
    var view := DeliverAll(map[], delivered);
    forall m ensures (m in view <==> m in s.rows) && (m in view ==> view[m].body.row == s.rows[m]) {
      ConvergesAt(s, delivered, m);
    }
  }

  /**
   A consumer that keeps the highest version rebuilds authority exactly, whatever the order and
   duplication of the delivery, after every history of grants, transitions and advances.
   */
  lemma ConsumerConverges(ops: seq<Op>, delivered: seq<Record<Body>>)
    requires forall e :: e in delivered <==> e in Run(EMPTY, ops).events
    ensures Rows(DeliverAll(map[], delivered)) == Run(EMPTY, ops).rows
  {
    EmptyValid();
    RunKeeps(EMPTY, ops);
    ConsumerConvergesFrom(Run(EMPTY, ops), delivered);
  }
}
