/** What every interleaving of issue, revocation, sweep and acceptance keeps. */
module InvitationResults {
  import opened Base
  import opened Invitation
  import M = Membership

  // ----- the invariant

  /** What the row records is what its state says, and the address was confirmed for who accepted. */
  ghost predicate RowOk(row: Row, confirmed: set<(Id, string)>) {
    && (row.subjectType == "human" || row.subjectType == "workload")
    && (row.state == Accepted <==> row.principal.Some?) && (row.state == Accepted <==> row.acceptedAt.Some?)
    && (row.state == Revoked <==> row.revokedAt.Some?)
    && (row.state == Accepted ==> row.acceptedAt.value < row.expiresAt && (row.principal.value, row.target) in confirmed)
  }

  ghost predicate RowsOk(rows: seq<Row>, confirmed: set<(Id, string)>) {
    forall i :: 0 <= i < |rows| ==> RowOk(rows[i], confirmed)
  }

  ghost predicate TokensUnique(rows: seq<Row>) {
    forall i, j :: 0 <= i < j < |rows| ==> rows[i].token != rows[j].token
  }

  ghost predicate SlotsUnique(rows: seq<Row>) {
    forall i, j :: 0 <= i < j < |rows| && rows[i].state == Pending && rows[j].state == Pending ==> Slot(rows[i]) != Slot(rows[j])
  }

  /** The Membership is the one the invitation describes, held by who accepted it. */
  ghost predicate Fits(row: Row, member: M.Row) {
    && row.state == Accepted && row.principal == Some(member.principal) && member.tenant == row.tenant
    && member.workspace == row.workspace && member.subjectType == row.subjectType
  }

  ghost predicate GrantingOk(w: World, g: Granting) {
    && g.invitation < |w.db.rows| && g.member in w.db.members.rows && Fits(w.db.rows[g.invitation], w.db.members.rows[g.member])
    && g.request < |w.requests|
    && w.requests[g.request].token == w.db.rows[g.invitation].token
    && Some(w.requests[g.request].caller) == w.db.rows[g.invitation].principal
    && Some(w.requests[g.request].at) == w.db.rows[g.invitation].acceptedAt
    && !w.requests[g.request].pc.Reading? && !w.requests[g.request].pc.Matching? && !w.requests[g.request].pc.Committing?
  }

  ghost predicate GrantingsOk(w: World) {
    forall k :: 0 <= k < |w.db.granted| ==> GrantingOk(w, w.db.granted[k])
  }

  /** One Membership per invitation, one invitation per Membership, one acceptance per request. */
  ghost predicate GrantedOnce(granted: seq<Granting>) {
    forall j, k :: 0 <= j < k < |granted| ==>
      granted[j].invitation != granted[k].invitation && granted[j].member != granted[k].member && granted[j].request != granted[k].request
  }

  ghost predicate GrantedFrom(granted: seq<Granting>, i: nat) {
    exists k :: 0 <= k < |granted| && granted[k].invitation == i
  }

  ghost predicate AcceptedGranted(db: Db) {
    forall i :: 0 <= i < |db.rows| && db.rows[i].state == Accepted ==> GrantedFrom(db.granted, i)
  }

  ghost predicate RequestOk(w: World, r: nat)
    requires r < |w.requests|
  {
    var q := w.requests[r];
    && (q.pc.Committing? ==> (q.caller, q.pc.target) in w.confirmed)
    && (q.pc.Joined? ==> exists k :: 0 <= k < |w.db.granted| && w.db.granted[k].request == r && w.db.granted[k].invitation == q.pc.invitation)
  }

  ghost predicate RequestsOk(w: World) {
    forall r :: 0 <= r < |w.requests| ==> RequestOk(w, r)
  }

  /** What an invitation published: that it was issued, then what settled it. */
  function History(notices: seq<Notice>, i: nat): seq<Notice> {
    if notices == [] then []
    else History(notices[..|notices| - 1], i) + if notices[|notices| - 1].invitation == i then [notices[|notices| - 1]] else []
  }

  function Expected(row: Row, i: nat): seq<Notice> {
    [Requested(i)] + match row.state
                     case Pending => []
                     case Accepted => [Moved(i, Accept)]
                     case Revoked => [Moved(i, Revoke)]
                     case Expired => [Moved(i, Expire)]
  }

  ghost predicate NoticesOk(db: Db) {
    forall i: nat :: History(db.notices, i) == if i < |db.rows| then Expected(db.rows[i], i) else []
  }

  datatype Part = RowsPart | UniquePart | GrantingsPart | RequestsPart | NoticesPart | MembersPart

  ghost predicate Keeps(w: World, part: Part) {
    match part
    case RowsPart => RowsOk(w.db.rows, w.confirmed)
    case UniquePart => TokensUnique(w.db.rows) && SlotsUnique(w.db.rows)
    case GrantingsPart => GrantingsOk(w) && GrantedOnce(w.db.granted) && AcceptedGranted(w.db)
    case RequestsPart => RequestsOk(w)
    case NoticesPart => NoticesOk(w.db)
    case MembersPart => M.Valid(w.db.members)
  }

  /** The invariant, part by part: a proof that only passes it along unfolds none of them. */
  ghost predicate Inv(w: World) {
    forall part: Part :: Keeps(w, part)
  }

  lemma Unfold(w: World)
    requires Inv(w)
    ensures RowsOk(w.db.rows, w.confirmed) && TokensUnique(w.db.rows) && SlotsUnique(w.db.rows)
    ensures GrantingsOk(w) && GrantedOnce(w.db.granted) && AcceptedGranted(w.db)
    ensures RequestsOk(w) && NoticesOk(w.db) && M.Valid(w.db.members)
  {
    assert Keeps(w, RowsPart) && Keeps(w, UniquePart) && Keeps(w, GrantingsPart);
    assert Keeps(w, RequestsPart) && Keeps(w, NoticesPart) && Keeps(w, MembersPart);
  }

  lemma Fold(w: World)
    requires RowsOk(w.db.rows, w.confirmed) && TokensUnique(w.db.rows) && SlotsUnique(w.db.rows)
    requires GrantingsOk(w) && GrantedOnce(w.db.granted) && AcceptedGranted(w.db)
    requires RequestsOk(w) && NoticesOk(w.db) && M.Valid(w.db.members)
    ensures Inv(w)
  {
    forall part: Part ensures Keeps(w, part) {
      match part
      case _ =>
    }
  }

  lemma TheRow(w: World, i: nat)
    requires Inv(w) && i < |w.db.rows|
    ensures RowOk(w.db.rows[i], w.confirmed)
  {
    assert Keeps(w, RowsPart);
  }

  /** A request told it joined has its granting. */
  lemma TheGranting(w: World, r: nat) returns (k: nat)
    requires Inv(w) && r < |w.requests| && w.requests[r].pc.Joined?
    ensures k < |w.db.granted| && w.db.granted[k].request == r && w.db.granted[k].invitation == w.requests[r].pc.invitation
    ensures GrantingOk(w, w.db.granted[k])
  {
    Unfold(w);
    assert RequestOk(w, r);
    k :| 0 <= k < |w.db.granted| && w.db.granted[k].request == r && w.db.granted[k].invitation == w.requests[r].pc.invitation;
  }

  // ----- what a step may do to the rows

  /** A settled row never changes; a pending one keeps everything but its address until it settles. */
  ghost predicate Follows(row: Row, row': Row) {
    && (row.state != Pending ==> row' == row)
    && row'.tenant == row.tenant && row'.workspace == row.workspace && row'.token == row.token
    && row'.subjectType == row.subjectType && row'.expiresAt == row.expiresAt
  }

  ghost predicate Later(w: World, w': World) {
    && |w.db.rows| <= |w'.db.rows| && (forall i :: 0 <= i < |w.db.rows| ==> Follows(w.db.rows[i], w'.db.rows[i]))
    && w.confirmed <= w'.confirmed && w.db.granted <= w'.db.granted
    && |w.requests| <= |w'.requests|
  }

  // ----- building blocks

  lemma HistoryOfAppend(notices: seq<Notice>, n: Notice, i: nat)
    ensures History(notices + [n], i) == History(notices, i) + if n.invitation == i then [n] else []
  {
    assert (notices + [n])[..|notices|] == notices;
  }

  lemma SettleKeepsUnique(rows: seq<Row>, i: nat, row: Row)
    requires i < |rows| && row.token == rows[i].token && row.state != Pending && TokensUnique(rows) && SlotsUnique(rows)
    ensures TokensUnique(rows[i := row]) && SlotsUnique(rows[i := row])
  {
  }

  lemma SettleKeepsNotices(db: Db, db': Db, i: nat, action: Action, k: nat)
    requires i < |db.rows| && db.rows[i].state == Pending && |db'.rows| == |db.rows|
    requires db'.rows == db.rows[i := db'.rows[i]] && db'.rows[i].state == Target(action)
    requires db'.notices == db.notices + [Moved(i, action)]
    requires History(db.notices, k) == if k < |db.rows| then Expected(db.rows[k], k) else []
    ensures History(db'.notices, k) == if k < |db'.rows| then Expected(db'.rows[k], k) else []
  {
    HistoryOfAppend(db.notices, Moved(i, action), k);
  }

  /** One pending row settles, and says so. */
  lemma SettleKeepsRows(db: Db, db': Db, i: nat, action: Action)
    requires i < |db.rows| && db.rows[i].state == Pending && |db'.rows| == |db.rows|
    requires db'.rows == db.rows[i := db'.rows[i]] && db'.rows[i].state == Target(action) && Follows(db.rows[i], db'.rows[i])
    requires db'.notices == db.notices + [Moved(i, action)]
    requires TokensUnique(db.rows) && SlotsUnique(db.rows) && NoticesOk(db)
    ensures TokensUnique(db'.rows) && SlotsUnique(db'.rows) && NoticesOk(db')
  {
    SettleKeepsUnique(db.rows, i, db'.rows[i]);
    forall k: nat ensures History(db'.notices, k) == if k < |db'.rows| then Expected(db'.rows[k], k) else [] {
      SettleKeepsNotices(db, db', i, action, k);
    }
  }

  /** Rows other than i, and the grantings and requests that rest on settled rows, are as before. */
  lemma GrantingsStay(w: World, w': World)
    requires GrantingsOk(w) && Later(w, w') && w'.db.granted == w.db.granted && w'.requests == w.requests && M.Later(w.db.members, w'.db.members)
    ensures GrantingsOk(w')
  {
    forall k | 0 <= k < |w'.db.granted| ensures GrantingOk(w', w'.db.granted[k]) {
      assert GrantingOk(w, w.db.granted[k]);
    }
  }

  lemma IssueRows(db: Db, row: Row, db': Db)
    requires row.state == Pending && !SlotTaken(db.rows, |db.rows|, row) && !TokenTaken(db.rows, row.token)
    requires db' == db.(rows := db.rows + [row], notices := db.notices + [Requested(|db.rows|)])
    requires TokensUnique(db.rows) && SlotsUnique(db.rows) && NoticesOk(db)
    ensures TokensUnique(db'.rows) && SlotsUnique(db'.rows) && NoticesOk(db')
  {
    forall k: nat ensures History(db'.notices, k) == if k < |db'.rows| then Expected(db'.rows[k], k) else [] {
      HistoryOfAppend(db.notices, Requested(|db.rows|), k);
      assert History(db.notices, k) == if k < |db.rows| then Expected(db.rows[k], k) else [];
    }
  }

  lemma IssueKeeps(w: World, row: Row, w': World)
    requires Inv(w) && RowOk(row, w.confirmed)
    requires row.state == Pending && !SlotTaken(w.db.rows, |w.db.rows|, row) && !TokenTaken(w.db.rows, row.token)
    requires w' == w.(db := w.db.(rows := w.db.rows + [row], notices := w.db.notices + [Requested(|w.db.rows|)]))
    ensures Inv(w') && Later(w, w')
  {
    Unfold(w);
    IssueRows(w.db, row, w'.db);
    LaterSelf(w.db.members);
    GrantingsStay(w, w');
    forall r | 0 <= r < |w'.requests| ensures RequestOk(w', r) {
      assert RequestOk(w, r);
    }
    Fold(w');
  }

  lemma LaterSelf(s: M.Store)
    ensures M.Later(s, s)
  {
  }

  /** Revocation and expiry: a pending row settles without granting anything. */
  lemma DropKeeps(w: World, i: nat, action: Action, row: Row, w': World)
    requires Inv(w) && i < |w.db.rows| && w.db.rows[i].state == Pending && action != Accept
    requires row == w.db.rows[i].(state := Target(action), revokedAt := row.revokedAt) && (row.revokedAt.Some? <==> action == Revoke)
    requires w' == w.(db := w.db.(rows := w.db.rows[i := row], notices := w.db.notices + [Moved(i, action)]))
    ensures Inv(w') && Later(w, w')
  {
    Unfold(w);
    SettleKeepsRows(w.db, w'.db, i, action);
    LaterSelf(w.db.members);
    GrantingsStay(w, w');
    forall r | 0 <= r < |w'.requests| ensures RequestOk(w', r) {
      assert RequestOk(w, r);
    }
    Fold(w');
  }

  lemma LaterTransitive(a: World, b: World, c: World)
    requires Later(a, b) && Later(b, c)
    ensures Later(a, c)
  {
    assert forall i :: 0 <= i < |a.db.rows| ==> Follows(a.db.rows[i], b.db.rows[i]) && Follows(b.db.rows[i], c.db.rows[i]);
  }

  /** The sweep expires the rows it selected and no other. */
  lemma {:induction false} SweepRows(db: Db, picked: seq<nat>, i: nat)
    requires (forall k :: 0 <= k < |picked| ==> picked[k] < |db.rows|) && i < |db.rows|
    ensures ExpireEach(db, picked).rows[i] == if i in picked then db.rows[i].(state := Expired) else db.rows[i]
  {
    if picked != [] {
      var n := |picked| - 1;
      SweepRows(db, picked[..n], i);
      assert picked == picked[..n] + [picked[n]];
    }
  }

  lemma {:induction false} SweepKeeps(w: World, picked: seq<nat>, at: int, now: int, w': World)
    requires Inv(w) && Selected(w.db.rows, picked, at, now) && w' == w.(db := ExpireEach(w.db, picked))
    ensures Inv(w') && Later(w, w')
  {
    if picked != [] {
      var n := |picked| - 1;
      var mid := w.(db := ExpireEach(w.db, picked[..n]));
      SweepKeeps(w, picked[..n], at, now, mid);
      var i := picked[n];
      SweepRows(w.db, picked[..n], i);
      TheRow(mid, i);
      DropKeeps(mid, i, Expire, mid.db.rows[i].(state := Expired), w');
      LaterTransitive(w, mid, w');
    }
  }

  /** A sweep that found room to spare leaves no lapsed row that it could lock. */
  lemma SweepDrains(db: Db, at: int, now: int, size: int, picked: seq<nat>, locked: set<nat>, i: nat)
    requires SweepTx(db, at, now, size, picked, locked).Ok? && |picked| < size && i < |db.rows| && i !in locked
    ensures
      var rows := SweepTx(db, at, now, size, picked, locked).value.0.rows;
      |rows| == |db.rows| && !(rows[i].state == Pending && rows[i].expiresAt <= at && rows[i].expiresAt <= now)
  {
    SweepRows(db, picked, i);
  }

  // ----- acceptance

  lemma {:induction false} ByTokenFinds(rows: seq<Row>, token: string)
    ensures ByToken(rows, token).Some? ==> ByToken(rows, token).value < |rows| && rows[ByToken(rows, token).value].token == token
    ensures ByToken(rows, token).None? ==> forall i :: 0 <= i < |rows| ==> rows[i].token != token
  {
    if rows != [] {
      ByTokenFinds(rows[..|rows| - 1], token);
    }
  }

  /** The read and the reload find the same invitation, since a token is never reused. */
  lemma ByTokenUnique(rows: seq<Row>, token: string, i: nat)
    requires TokensUnique(rows) && i < |rows| && rows[i].token == token
    ensures ByToken(rows, token) == Some(i)
  {
    ByTokenFinds(rows, token);
  }

  /** The acceptance transaction: the row settles for the caller, and the Membership it describes is granted. */
  lemma AcceptWrites(db: Db, r: nat, q: Request, tenant: Id, target: string, m: Id, event: Id, db': Db, i: nat)
    requires AcceptTx(db, r, q.caller, q.token, q.at, tenant, target, m, event) == Ok((db', i))
    ensures i < |db.rows| && db.rows[i].state == Pending && db.rows[i].token == q.token && db.rows[i].target == target
    ensures q.at < db.rows[i].expiresAt
    ensures db'.rows == db.rows[i := db.rows[i].(state := Accepted, principal := Some(q.caller), acceptedAt := Some(q.at))]
    ensures db'.notices == db.notices + [Moved(i, Accept)] && db'.granted == db.granted + [Granting(r, i, m, event)]
    ensures m !in db.members.rows && m in db'.members.rows
    ensures Fits(db'.rows[i], db'.members.rows[m])
    ensures M.Valid(db.members) ==> M.Valid(db'.members) && M.Later(db.members, db'.members)
  {
    ByTokenFinds(db.rows, q.token);
    if M.Valid(db.members) {
      M.ApplyKeeps(db.members, M.OpGrant(tenant, GrantOf(db.rows[i], q.caller, q.at), m, event));
    }
  }

  lemma AcceptGranted(w: World, r: nat, m: Id, event: Id, i: nat, w': World)
    requires Inv(w) && r < |w.requests| && w.requests[r].pc.Committing?
    requires w'.db.granted == w.db.granted + [Granting(r, i, m, event)] && m !in w.db.members.rows
    requires i < |w.db.rows| && w.db.rows[i].state == Pending
    ensures GrantedOnce(w'.db.granted)
  {
    Unfold(w);
    forall k | 0 <= k < |w.db.granted| ensures w.db.granted[k].invitation != i && w.db.granted[k].member != m && w.db.granted[k].request != r {
      assert GrantingOk(w, w.db.granted[k]);
    }
  }

  lemma AcceptGrantings(w: World, r: nat, i: nat, g: Granting, w': World)
    requires Inv(w) && r < |w.requests| && |w'.requests| == |w.requests| && i < |w.db.rows| && |w'.db.rows| == |w.db.rows|
    requires forall k :: 0 <= k < |w.requests| ==> w'.requests[k] == w.requests[k].(pc := w'.requests[k].pc) && (k != r ==> w'.requests[k] == w.requests[k])
    requires w.requests[r].pc.Committing? && (w'.requests[r].pc.Joined? || w'.requests[r].pc.Refused?)
    requires w.db.rows[i].state == Pending && forall k :: 0 <= k < |w.db.rows| && k != i ==> w'.db.rows[k] == w.db.rows[k]
    requires M.Later(w.db.members, w'.db.members) && w'.db.granted == w.db.granted + [g] && GrantingOk(w', g)
    ensures GrantingsOk(w')
  {
    Unfold(w);
    forall k | 0 <= k < |w'.db.granted| ensures GrantingOk(w', w'.db.granted[k]) {
      if k < |w.db.granted| {
        assert GrantingOk(w, w.db.granted[k]);
      }
    }
  }

  lemma AcceptRequests(w: World, r: nat, g: Granting, w': World)
    requires Inv(w) && r < |w.requests| && |w'.requests| == |w.requests| && w'.confirmed == w.confirmed
    requires forall k :: 0 <= k < |w.requests| && k != r ==> w'.requests[k] == w.requests[k]
    requires w'.requests[r].pc.Joined? || w'.requests[r].pc.Refused?
    requires w'.db.granted == w.db.granted + [g] && g.request == r && (w'.requests[r].pc.Joined? ==> w'.requests[r].pc.invitation == g.invitation)
    ensures RequestsOk(w')
    ensures forall i :: 0 <= i < |w.db.rows| && w.db.rows[i].state == Accepted ==> GrantedFrom(w'.db.granted, i)
  {
    Unfold(w);
    assert w'.db.granted[|w.db.granted|] == g;
    assert forall k :: 0 <= k < |w.db.granted| ==> w'.db.granted[k] == w.db.granted[k];
    forall k | 0 <= k < |w'.requests| ensures RequestOk(w', k) {
      assert RequestOk(w, k);
    }
  }

  lemma AcceptKeeps(w: World, r: nat, m: Id, event: Id, db': Db, i: nat, pc: Pc, w': World)
    requires Inv(w) && r < |w.requests| && w.requests[r].pc.Committing?
    requires AcceptTx(w.db, r, w.requests[r].caller, w.requests[r].token, w.requests[r].at, w.requests[r].pc.tenant, w.requests[r].pc.target, m, event) == Ok((db', i))
    requires pc == Joined(i) || pc.Refused?
    requires w' == Put(w, r, pc).(db := db')
    ensures Inv(w') && Later(w, w')
  {
    var q := w.requests[r];
    var g := Granting(r, i, m, event);
    assert M.Valid(w.db.members) && (q.caller, q.pc.target) in w.confirmed by {
      Unfold(w);
      assert RequestOk(w, r);
    }
    AcceptWrites(w.db, r, q, q.pc.tenant, q.pc.target, m, event, db', i);
    AcceptGranted(w, r, m, event, i, w');
    AcceptGrantings(w, r, i, g, w');
    AcceptRequests(w, r, g, w');
    assert RowsOk(w'.db.rows, w'.confirmed) && TokensUnique(w'.db.rows) && SlotsUnique(w'.db.rows) && NoticesOk(w'.db) && AcceptedGranted(w'.db) by {
      Unfold(w);
      SettleKeepsRows(w.db, w'.db, i, Accept);
      assert w'.db.granted[|w.db.granted|] == g;
    }
    Fold(w');
  }

  // ----- the other steps

  /** A step of one request that leaves the database alone. */
  lemma QuietKeeps(w: World, w': World)
    requires Inv(w) && w'.db == w.db && w.confirmed <= w'.confirmed && |w.requests| <= |w'.requests|
    requires forall r :: 0 <= r < |w.requests| ==>
               && w'.requests[r] == w.requests[r].(pc := w'.requests[r].pc)
               && (w'.requests[r].pc == w.requests[r].pc || w'.requests[r].pc.Refused? || w'.requests[r].pc.Dead?
                   || w.requests[r].pc.Reading? || w.requests[r].pc.Matching?)
    requires forall r :: 0 <= r < |w'.requests| && (r >= |w.requests| || w'.requests[r].pc != w.requests[r].pc) ==>
               !w'.requests[r].pc.Joined? && (w'.requests[r].pc.Committing? ==> (w'.requests[r].caller, w'.requests[r].pc.target) in w'.confirmed)
    ensures Inv(w') && Later(w, w')
  {
    Unfold(w);
    forall r | 0 <= r < |w'.requests| ensures RequestOk(w', r) {
      if r < |w.requests| {
        assert RequestOk(w, r);
      }
    }
    forall k | 0 <= k < |w'.db.granted| ensures GrantingOk(w', w'.db.granted[k]) {
      assert GrantingOk(w, w.db.granted[k]);
    }
    forall i | 0 <= i < |w'.db.rows| ensures RowOk(w'.db.rows[i], w'.confirmed) {
      assert RowOk(w.db.rows[i], w.confirmed);
    }
    Fold(w');
  }

  /** Membership commands and Tenant changes touch no invitation. */
  lemma MemberKeeps(w: World, w': World)
    requires Inv(w) && M.Valid(w'.db.members) && M.Later(w.db.members, w'.db.members)
    requires w' == w.(db := w.db.(members := w'.db.members, active := w'.db.active, known := w'.db.known))
    ensures Inv(w') && Later(w, w')
  {
    Unfold(w);
    GrantingsStay(w, w');
    forall r | 0 <= r < |w'.requests| ensures RequestOk(w', r) {
      assert RequestOk(w, r);
    }
    Fold(w');
  }

  lemma RetargetUnique(rows: seq<Row>, i: nat, row: Row)
    requires i < |rows| && row == rows[i].(target := row.target) && !SlotTaken(rows, i, row) && TokensUnique(rows) && SlotsUnique(rows)
    ensures TokensUnique(rows[i := row]) && SlotsUnique(rows[i := row])
  {
  }

  lemma RetargetKeeps(w: World, i: nat, target: string, w': World)
    requires Inv(w) && i < |w.db.rows| && w.db.rows[i].state == Pending && !SlotTaken(w.db.rows, i, w.db.rows[i].(target := target))
    requires w' == w.(db := w.db.(rows := w.db.rows[i := w.db.rows[i].(target := target)]))
    ensures Inv(w') && Later(w, w')
  {
    Unfold(w);
    RetargetUnique(w.db.rows, i, w'.db.rows[i]);
    LaterSelf(w.db.members);
    GrantingsStay(w, w');
    forall r | 0 <= r < |w'.requests| ensures RequestOk(w', r) {
      assert RequestOk(w, r);
    }
    forall k: nat ensures History(w'.db.notices, k) == if k < |w'.db.rows| then Expected(w'.db.rows[k], k) else [] {
      assert History(w.db.notices, k) == if k < |w.db.rows| then Expected(w.db.rows[k], k) else [];
    }
    Fold(w');
  }

  lemma CommitKeeps(w: World, r: nat, m: Id, event: Id, fate: Fate, w': World)
    requires Inv(w) && r < |w.requests| && w.requests[r].pc.Committing? && w' == CommitStep(w, r, m, event, fate)
    ensures Inv(w') && Later(w, w')
  {
    var q := w.requests[r];
    var result := AcceptTx(w.db, r, q.caller, q.token, q.at, q.pc.tenant, q.pc.target, m, event);
    if result.Ok? && fate != RollsBack {
      AcceptKeeps(w, r, m, event, result.value.0, result.value.1, w'.requests[r].pc, w');
    } else {
      QuietKeeps(w, w');
    }
  }

  lemma DatabaseStepKeeps(w: World, s: Step, w': World)
    requires Inv(w) && w' == Take(w, s) && (s.Issue? || s.Withdraw? || s.Sweep? || s.Retarget?) && w' != w
    ensures Inv(w') && Later(w, w')
  {
    match s
    case Issue(tenant, workspace, target, subjectType, ttl, token, at) =>
      IssueKeeps(w, w'.db.rows[|w.db.rows|], w');
    case Withdraw(tenant, i, at) =>
      TheRow(w, i);
      DropKeeps(w, i, Revoke, w'.db.rows[i], w');
    case Sweep(at, now, size, picked, locked) =>
      SweepKeeps(w, picked, at, now, w');
    case Retarget(i, target) =>
      RetargetKeeps(w, i, target, w');
  }

  lemma StepKeeps(w: World, s: Step)
    requires Inv(w)
    ensures Inv(Take(w, s)) && Later(w, Take(w, s))
  {
    var w' := Take(w, s);
    if w' == w {
    } else if s.Issue? || s.Withdraw? || s.Sweep? || s.Retarget? {
      DatabaseStepKeeps(w, s, w');
    } else if s.Commit? {
      CommitKeeps(w, s.r, s.m, s.event, s.fate, w');
    } else if s.Member? || s.TenantStatus? {
      assert M.Valid(w.db.members) by { Unfold(w); }
      if s.Member? {
        M.ApplyKeeps(w.db.members, s.op);
      } else {
        LaterSelf(w.db.members);
      }
      MemberKeeps(w, w');
    } else {
      QuietKeeps(w, w');
    }
  }

  lemma StartHolds()
    ensures Inv(START)
  {
    M.EmptyValid();
    Fold(START);
  }

  lemma {:induction false} RunFrom(w: World, steps: seq<Step>)
    requires Inv(w)
    ensures Inv(Exec(w, steps)) && Later(w, Exec(w, steps))
  {
    if steps != [] {
      RunFrom(w, steps[..|steps| - 1]);
      var before := Exec(w, steps[..|steps| - 1]);
      StepKeeps(before, steps[|steps| - 1]);
      LaterTransitive(w, before, Exec(w, steps));
    }
  }

  lemma RunKeeps(steps: seq<Step>)
    ensures Inv(Exec(START, steps))
  {
    StartHolds();
    RunFrom(START, steps);
  }

  // ----- results

  /**
   An invitation is accepted exactly when a Membership was granted from it, and then by one
   acceptance, once: for the Principal confirmed to hold the address the row holds, before its expiry.
   */
  lemma AcceptedExactlyWhenGranted(steps: seq<Step>, i: nat)
    requires i < |Exec(START, steps).db.rows|
    ensures
      var w := Exec(START, steps);
      var row := w.db.rows[i];
      && (row.state == Accepted <==> GrantedFrom(w.db.granted, i))
      && (forall j, k :: 0 <= j < |w.db.granted| && 0 <= k < |w.db.granted| && w.db.granted[j].invitation == i && w.db.granted[k].invitation == i ==> j == k)
      && (row.state == Accepted ==>
            && row.principal.Some? && row.acceptedAt.Some? && row.acceptedAt.value < row.expiresAt
            && (row.principal.value, row.target) in w.confirmed)
      && (forall k :: 0 <= k < |w.db.granted| && w.db.granted[k].invitation == i ==>
            w.db.granted[k].member in w.db.members.rows && Fits(row, w.db.members.rows[w.db.granted[k].member]))
  {
    RunKeeps(steps);
    var w := Exec(START, steps);
    Unfold(w);
    TheRow(w, i);
    forall k | 0 <= k < |w.db.granted| && w.db.granted[k].invitation == i
      ensures w.db.granted[k].member in w.db.members.rows && Fits(w.db.rows[i], w.db.members.rows[w.db.granted[k].member])
    {
      assert GrantingOk(w, w.db.granted[k]);
    }
  }

  /** A settled invitation is never left; a pending one never loses its token, context or expiry. */
  lemma SettledForGood(steps: seq<Step>, later: seq<Step>, i: nat)
    requires i < |Exec(START, steps).db.rows|
    ensures
      var w := Exec(START, steps);
      var w' := Exec(w, later);
      && i < |w'.db.rows| && Follows(w.db.rows[i], w'.db.rows[i])
      && (w.db.rows[i].state != Pending ==> w'.db.rows[i] == w.db.rows[i])
  {
    RunKeeps(steps);
    RunFrom(Exec(START, steps), later);
  }

  /** Of any number of acceptances racing on one token, at most one is told it joined. */
  lemma OneAcceptanceWins(steps: seq<Step>, r1: nat, r2: nat)
    requires
      var w := Exec(START, steps);
      && r1 < |w.requests| && r2 < |w.requests| && w.requests[r1].pc.Joined? && w.requests[r2].pc.Joined?
      && w.requests[r1].token == w.requests[r2].token
    ensures r1 == r2
  {
    RunKeeps(steps);
    var w := Exec(START, steps);
    var j := TheGranting(w, r1);
    var k := TheGranting(w, r2);
    assert TokensUnique(w.db.rows) && GrantedOnce(w.db.granted) by { Unfold(w); }
  }

  /** An acceptance that finds its invitation settled is refused, then and whenever else it commits, and changes nothing. */
  lemma SettledIsNotAcceptable(steps: seq<Step>, later: seq<Step>, i: nat, r: nat, m: Id, event: Id, fate: Fate)
    requires
      var w := Exec(START, steps);
      var w' := Exec(w, later);
      && i < |w.db.rows| && w.db.rows[i].state != Pending
      && r < |w'.requests| && w'.requests[r].token == w.db.rows[i].token && w'.requests[r].pc.Committing?
    ensures
      var w' := Exec(Exec(START, steps), later);
      Take(w', Commit(r, m, event, fate)) == Put(w', r, Refused(NotAcceptable))
  {
    SettledForGood(steps, later, i);
    RunKeeps(steps);
    RunFrom(Exec(START, steps), later);
    var w' := Exec(Exec(START, steps), later);
    assert ByToken(w'.db.rows, w'.requests[r].token) == Some(i) by {
      Unfold(w');
      ByTokenUnique(w'.db.rows, w'.requests[r].token, i);
    }
  }

  /** Every change of an invitation is published once, and nothing else is. */
  lemma PublishedExactly(steps: seq<Step>, i: nat)
    ensures
      var db := Exec(START, steps).db;
      History(db.notices, i) == if i < |db.rows| then Expected(db.rows[i], i) else []
  {
    RunKeeps(steps);
    Unfold(Exec(START, steps));
  }

  /** At most one invitation is outstanding per Tenant, address and context. */
  lemma OneOutstanding(steps: seq<Step>, i: nat, j: nat)
    requires
      var rows := Exec(START, steps).db.rows;
      i < |rows| && j < |rows| && Outstanding(rows[i].state) && Outstanding(rows[j].state) && Slot(rows[i]) == Slot(rows[j])
    ensures i == j
  {
    RunKeeps(steps);
    Unfold(Exec(START, steps));
  }

  lemma CommitExpiresNothing(w: World, r: nat, m: Id, event: Id, fate: Fate, i: nat)
    requires r < |w.requests| && w.requests[r].pc.Committing? && i < |w.db.rows| && w.db.rows[i].state != Expired
    ensures i < |CommitStep(w, r, m, event, fate).db.rows| && CommitStep(w, r, m, event, fate).db.rows[i].state != Expired
  {
    var q := w.requests[r];
    var result := AcceptTx(w.db, r, q.caller, q.token, q.at, q.pc.tenant, q.pc.target, m, event);
    if result.Ok? {
      AcceptWrites(w.db, r, q, q.pc.tenant, q.pc.target, m, event, result.value.0, result.value.1);
    }
  }

  lemma OnlySweepExpires(w: World, s: Step, i: nat)
    requires i < |w.db.rows| && w.db.rows[i].state != Expired && i < |Take(w, s).db.rows| && !s.Sweep?
    ensures Take(w, s).db.rows[i].state != Expired
  {
    if s.Commit? && s.r < |w.requests| && w.requests[s.r].pc.Committing? {
      CommitExpiresNothing(w, s.r, s.m, s.event, s.fate, i);
    }
  }

  /** An invitation expires only once both clocks are past its expiry. */
  lemma ExpiresOnlyWhenLapsed(steps: seq<Step>, s: Step, i: nat)
    requires
      var w := Exec(START, steps);
      i < |w.db.rows| && w.db.rows[i].state != Expired && i < |Take(w, s).db.rows| && Take(w, s).db.rows[i].state == Expired
    ensures s.Sweep? && Exec(START, steps).db.rows[i].expiresAt <= s.at && Exec(START, steps).db.rows[i].expiresAt <= s.now
  {
    var w := Exec(START, steps);
    if !s.Sweep? {
      OnlySweepExpires(w, s, i);
    } else if Selected(w.db.rows, s.picked, s.at, s.now) {
      SweepRows(w.db, s.picked, i);
    }
  }

  /** No active Membership in the invitation's context means the unique index has nothing to refuse. */
  lemma IndexNeverRefuses(members: M.Store, caller: Id, row: Row, m: Id)
    requires !ActiveMember(members, caller, row)
    ensures !M.SlotTaken(members.rows, m, M.Row(caller, row.tenant, row.workspace, row.subjectType, M.Active, 1))
  {
  }

  /** The transaction accepts exactly when the invitation still stands as it was matched and nothing bars the Membership. */
  lemma AcceptsExactlyWhen(steps: seq<Step>, r: nat, m: Id, event: Id)
    requires r < |Exec(START, steps).requests| && Exec(START, steps).requests[r].pc.Committing?
    ensures
      var w := Exec(START, steps);
      var q := w.requests[r];
      AcceptTx(w.db, r, q.caller, q.token, q.at, q.pc.tenant, q.pc.target, m, event).Ok? <==>
        && q.caller != NIL && m !in w.db.members.rows && !M.EventExists(w.db.members, event)
        && exists i :: 0 <= i < |w.db.rows|
             && w.db.rows[i].token == q.token && w.db.rows[i].tenant == q.pc.tenant && w.db.rows[i].target == q.pc.target
             && w.db.rows[i].state == Pending && q.at < w.db.rows[i].expiresAt
             && q.pc.tenant in w.db.known && q.pc.tenant in w.db.active && !ActiveMember(w.db.members, q.caller, w.db.rows[i])
  {
    RunKeeps(steps);
    var w := Exec(START, steps);
    var q := w.requests[r];
    var found := ByToken(w.db.rows, q.token);
    ByTokenFinds(w.db.rows, q.token);
    forall i | 0 <= i < |w.db.rows| && w.db.rows[i].token == q.token ensures found == Some(i) {
      Unfold(w);
      ByTokenUnique(w.db.rows, q.token, i);
    }
    if found.Some? {
      TheRow(w, found.value);
      if !ActiveMember(w.db.members, q.caller, w.db.rows[found.value]) {
        IndexNeverRefuses(w.db.members, q.caller, w.db.rows[found.value], m);
      }
    }
  }
}
