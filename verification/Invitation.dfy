/**
 Invitations and their acceptance (internal/invitation/service.go, state.go). An acceptance reads the
 row its token selects, asks whether the caller holds the row's address, and only then opens the
 transaction that accepts; issue, revocation, the expiry sweep, other acceptances and Membership
 commands run in between. A row's identifier is its position in the table.
 */
module Invitation {
  import opened Base
  import M = Membership

  datatype State = Pending | Accepted | Expired | Revoked

  datatype Action = Accept | Revoke | Expire

  datatype Error = Invalid | LifetimeRefused | NotFound | Settled | NotAcceptable | IdentityUnavailable | TenantNotActive
                 | AlreadyMember | TokenMalformed | DatabaseFault | MembershipRefused(error: M.Error)

  datatype Row = Row(tenant: Id, workspace: Id, target: string, token: string, subjectType: string, state: State,
                     principal: Option<Id>, expiresAt: int, acceptedAt: Option<int>, revokedAt: Option<int>)

  const DAY := 24 * 60 * 60 * SECOND
  const DEFAULT_TTL := 7 * DAY
  const MAX_TTL := 30 * DAY

  // ----- the state machine

  predicate Outstanding(s: State) {
    s == Pending
  }

  function Target(action: Action): State {
    match action
    case Accept => Accepted
    case Revoke => Revoked
    case Expire => Expired
  }

  /** Every action is permitted from pending alone. */
  function Resolve(action: Action, current: State): Result<State, Error> {
    if !Outstanding(current) then Err(Settled) else Ok(Target(action))
  }

  predicate ExpiredAt(row: Row, now: int) {
    now >= row.expiresAt
  }

  // ----- tokens and addresses (both hashes are taken as injective)

  predicate IsSpace(c: char) {
    c in " \t\n\r"
  }

  function TrimLeft(s: string): string {
    if s != "" && IsSpace(s[0]) then TrimLeft(s[1..]) else s
  }

  function TrimRight(s: string): string {
    if s != "" && IsSpace(s[|s| - 1]) then TrimRight(s[..|s| - 1]) else s
  }

  function Lower(s: string): string {
    seq(|s|, i requires 0 <= i < |s| => if 'A' <= s[i] <= 'Z' then s[i] - 'A' + 'a' else s[i])
  }

  /** What two spellings of one address share. */
  function Normal(target: string): string {
    Lower(TrimRight(TrimLeft(target)))
  }

  predicate Base64(c: char) {
    'A' <= c <= 'Z' || 'a' <= c <= 'z' || '0' <= c <= '9' || c == '-' || c == '_'
  }

  /** The decoder skips line breaks. */
  function Digits(token: string): string {
    if token == "" then "" else (if token[0] in "\r\n" then "" else token[..1]) + Digits(token[1..])
  }

  /** As long as the encoding of 32 bytes without padding, and decodable. */
  predicate WellFormed(token: string) {
    |token| == 43 && |Digits(token)| % 4 != 1 && forall c :: c in Digits(token) ==> Base64(c)
  }

  // ----- the tables

  datatype Notice = Requested(invitation: nat) | Moved(invitation: nat, action: Action)

  /** A Membership granted from an invitation, with the acceptance that granted it. A history annotation. */
  datatype Granting = Granting(request: nat, invitation: nat, member: Id, event: Id)

  datatype Db = Db(rows: seq<Row>, active: set<Id>, known: set<Id>, members: M.Store, notices: seq<Notice>, granted: seq<Granting>)

  /** invitation_pending_unique: a Tenant, an address, and the workspace or the Tenant as a whole. */
  function Slot(row: Row): (Id, string, Id) {
    (row.tenant, Normal(row.target), if row.workspace == NIL then row.tenant else row.workspace)
  }

  predicate SlotTaken(rows: seq<Row>, i: nat, row: Row) {
    row.state == Pending && exists k :: 0 <= k < |rows| && k != i && rows[k].state == Pending && Slot(rows[k]) == Slot(row)
  }

  predicate TokenTaken(rows: seq<Row>, token: string) {
    exists k :: 0 <= k < |rows| && rows[k].token == token
  }

  /** The row the token selects among the first n: token hashes are unique, so there is at most one. */
  function ByToken(rows: seq<Row>, token: string): Option<nat> {
    if rows == [] then None
    else if rows[|rows| - 1].token == token then Some(|rows| - 1)
    else ByToken(rows[..|rows| - 1], token)
  }

  // ----- transactions

  function IssueTx(db: Db, tenant: Id, workspace: Id, target: string, subjectType: string, ttl: int, token: string, at: int): Result<Db, Error> {
    if Blank(target) || (subjectType != "human" && subjectType != "workload") then Err(Invalid)
    else if ttl < 0 || ttl > MAX_TTL then Err(LifetimeRefused)
    else
      var row := Row(tenant, workspace, target, token, subjectType, Pending, None, at + (if ttl == 0 then DEFAULT_TTL else ttl), None, None);
      if SlotTaken(db.rows, |db.rows|, row) || TokenTaken(db.rows, token) then Err(DatabaseFault)
      else Ok(db.(rows := db.rows + [row], notices := db.notices + [Requested(|db.rows|)]))
  }

  function RevokeTx(db: Db, tenant: Id, i: nat, at: int): Result<Db, Error> {
    if i >= |db.rows| || db.rows[i].tenant != tenant then Err(NotFound)
    else if Resolve(Revoke, db.rows[i].state).Err? then Err(Settled)
    else Ok(db.(rows := db.rows[i := db.rows[i].(state := Revoked, revokedAt := Some(at))], notices := db.notices + [Moved(i, Revoke)]))
  }

  /** Past its expiry by the service's clock and by the database's. */
  predicate Lapsed(row: Row, at: int, now: int) {
    row.state == Pending && row.expiresAt <= at && row.expiresAt <= now
  }

  function ExpireOne(db: Db, i: nat): Db
    requires i < |db.rows|
  {
    db.(rows := db.rows[i := db.rows[i].(state := Expired)], notices := db.notices + [Moved(i, Expire)])
  }

  /** The rows the sweep's query selected and locked: lapsed, each once. */
  predicate Selected(rows: seq<Row>, picked: seq<nat>, at: int, now: int) {
    && (forall k :: 0 <= k < |picked| ==> picked[k] < |rows| && Lapsed(rows[picked[k]], at, now))
    && (forall j, k :: 0 <= j < k < |picked| ==> picked[j] != picked[k])
  }

  /**
   The sweep's query: lapsed rows that nobody else holds locked, earliest expiry first, up to `size`;
   one it leaves is no earlier than any it takes, and it leaves none while there is room.
   */
  predicate Query(rows: seq<Row>, picked: seq<nat>, at: int, now: int, size: int, locked: set<nat>) {
    && Selected(rows, picked, at, now) && |picked| <= size
    && (forall k :: 0 <= k < |picked| ==> picked[k] !in locked)
    && (forall j, k :: 0 <= j < k < |picked| ==> rows[picked[j]].expiresAt <= rows[picked[k]].expiresAt)
    && (forall i :: 0 <= i < |rows| && Lapsed(rows[i], at, now) && i !in locked && i !in picked ==>
          |picked| == size && forall k :: 0 <= k < |picked| ==> rows[picked[k]].expiresAt <= rows[i].expiresAt)
  }

  function ExpireEach(db: Db, picked: seq<nat>): (r: Db)
    requires forall k :: 0 <= k < |picked| ==> picked[k] < |db.rows|
    ensures |r.rows| == |db.rows|
  {
    if picked == [] then db else ExpireOne(ExpireEach(db, picked[..|picked| - 1]), picked[|picked| - 1])
  }

  function SweepTx(db: Db, at: int, now: int, size: int, picked: seq<nat>, locked: set<nat>): Result<(Db, nat), Error> {
    if size <= 0 then Err(Invalid)
    else if !Query(db.rows, picked, at, now, size, locked) then Err(DatabaseFault)
    else Ok((ExpireEach(db, picked), |picked|))
  }

  function GrantOf(row: Row, caller: Id, at: int): M.GrantRequest {
    M.GrantRequest(caller, row.tenant, row.workspace, row.subjectType, "invitation", Some(at), None)
  }

  predicate ActiveMember(members: M.Store, caller: Id, row: Row) {
    exists m | m in members.rows ::
      && members.rows[m].status == M.Active && members.rows[m].principal == caller && members.rows[m].tenant == row.tenant
      && (if members.rows[m].workspace == NIL then members.rows[m].tenant else members.rows[m].workspace)
         == (if row.workspace == NIL then row.tenant else row.workspace)
      && members.rows[m].subjectType == row.subjectType
  }

  /** The acceptance transaction, in the Tenant the read named, for the address the match was asked about. */
  function AcceptTx(db: Db, r: nat, caller: Id, token: string, at: int, tenant: Id, target: string, m: Id, event: Id): Result<(Db, nat), Error> {
    var found := ByToken(db.rows, token);
    if found.None? || found.value >= |db.rows| || db.rows[found.value].tenant != tenant then Err(NotAcceptable)
    else
      var i := found.value;
      var row := db.rows[i];
      if row.state != Pending || ExpiredAt(row, at) || row.target != target then Err(NotAcceptable)
      else if Resolve(Accept, row.state).Err? then Err(Settled)
      else if row.tenant !in db.known then Err(DatabaseFault)
      else if row.tenant !in db.active then Err(TenantNotActive)
      else if ActiveMember(db.members, caller, row) then Err(AlreadyMember)
      else
        var granted := M.GrantWithin(db.members, tenant, GrantOf(row, caller, at), m, event);
        if granted.Err? then Err(MembershipRefused(granted.error))
        else
          Ok((Db(db.rows[i := row.(state := Accepted, principal := Some(caller), acceptedAt := Some(at))], db.active, db.known,
                 granted.value, db.notices + [Moved(i, Accept)], db.granted + [Granting(r, i, m, event)]), i))
  }

  // ----- acceptances in flight

  datatype Pc =
    | Reading
    | Matching(tenant: Id, target: string)
    | Committing(tenant: Id, target: string)
    | Joined(invitation: nat)
    | Refused(error: Error)
    | Dead

  /** `at` is the service's clock, read once when the request arrives. */
  datatype Request = Request(caller: Id, token: string, at: int, pc: Pc)

  /** `confirmed` is every address the identity service said a Principal holds. */
  datatype World = World(db: Db, requests: seq<Request>, confirmed: set<(Id, string)>)

  datatype Match = Yes | No | Unavailable

  datatype Fate = Commits | Unheard | RollsBack

  datatype Step =
    | Issue(tenant: Id, workspace: Id, target: string, subjectType: string, ttl: int, token: string, at: int)
    | Withdraw(tenant: Id, i: nat, at: int)
    | Sweep(at: int, now: int, size: int, picked: seq<nat>, locked: set<nat>)
    | Arrive(caller: Id, token: string, at: int)
    | Read(r: nat)
    | Ask(r: nat, answer: Match)
    | Commit(r: nat, m: Id, event: Id, fate: Fate)
    | Crash(r: nat)
    | Member(op: M.Op)
    | TenantStatus(tenant: Id, active: bool)
    | Retarget(i: nat, target: string)

  function ReadRow(db: Db, q: Request): Pc {
    var found := ByToken(db.rows, q.token);
    if found.None? || found.value >= |db.rows| then Refused(NotAcceptable)
    else
      var row := db.rows[found.value];
      if row.state != Pending || q.at >= row.expiresAt then Refused(NotAcceptable) else Matching(row.tenant, row.target)
  }

  function Put(w: World, r: nat, pc: Pc): World
    requires r < |w.requests|
  {
    w.(requests := w.requests[r := w.requests[r].(pc := pc)])
  }

  function AskStep(w: World, r: nat, answer: Match): World
    requires r < |w.requests| && w.requests[r].pc.Matching?
  {
    var q := w.requests[r];
    match answer
    case Unavailable => Put(w, r, Refused(IdentityUnavailable))
    case No => Put(w, r, Refused(NotAcceptable))
    case Yes => Put(w, r, Committing(q.pc.tenant, q.pc.target)).(confirmed := w.confirmed + {(q.caller, q.pc.target)})
  }

  function CommitStep(w: World, r: nat, m: Id, event: Id, fate: Fate): World
    requires r < |w.requests| && w.requests[r].pc.Committing?
  {
    var q := w.requests[r];
    var result := AcceptTx(w.db, r, q.caller, q.token, q.at, q.pc.tenant, q.pc.target, m, event);
    if result.Err? then Put(w, r, Refused(result.error))
    else match fate
      case Commits => Put(w, r, Joined(result.value.1)).(db := result.value.0)
      case Unheard => Put(w, r, Refused(DatabaseFault)).(db := result.value.0)
      case RollsBack => Put(w, r, Refused(DatabaseFault))
  }

  function OrSame(w: World, result: Result<Db, Error>): World {
    if result.Ok? then w.(db := result.value) else w
  }

  function Take(w: World, s: Step): World {
    match s
    case Issue(tenant, workspace, target, subjectType, ttl, token, at) =>
      OrSame(w, IssueTx(w.db, tenant, workspace, target, subjectType, ttl, token, at))
    case Withdraw(tenant, i, at) => OrSame(w, RevokeTx(w.db, tenant, i, at))
    case Sweep(at, now, size, picked, locked) =>
      var result := SweepTx(w.db, at, now, size, picked, locked);
      if result.Ok? then w.(db := result.value.0) else w
    case Arrive(caller, token, at) =>
      w.(requests := w.requests + [Request(caller, token, at, if WellFormed(token) then Reading else Refused(TokenMalformed))])
    case Read(r) => if r < |w.requests| && w.requests[r].pc.Reading? then Put(w, r, ReadRow(w.db, w.requests[r])) else w
    case Ask(r, answer) => if r < |w.requests| && w.requests[r].pc.Matching? then AskStep(w, r, answer) else w
    case Commit(r, m, event, fate) => if r < |w.requests| && w.requests[r].pc.Committing? then CommitStep(w, r, m, event, fate) else w
    case Crash(r) => if r < |w.requests| then Put(w, r, Dead) else w
    case Member(op) => w.(db := w.db.(members := M.Apply(w.db.members, op)))
    case TenantStatus(tenant, active) =>
      w.(db := w.db.(known := w.db.known + {tenant}, active := if active then w.db.active + {tenant} else w.db.active - {tenant}))
    case Retarget(i, target) =>
      if i < |w.db.rows| && w.db.rows[i].state == Pending && !SlotTaken(w.db.rows, i, w.db.rows[i].(target := target))
      then w.(db := w.db.(rows := w.db.rows[i := w.db.rows[i].(target := target)])) else w
  }

  function Exec(w: World, steps: seq<Step>): World {
    if steps == [] then w else Take(Exec(w, steps[..|steps| - 1]), steps[|steps| - 1])
  }

  const START := World(Db([], {}, {}, M.EMPTY, [], []), [], {})
}
