/**
 The invitation service as it runs: acceptance in three phases with whatever other requests do in
 between, and the sweep as a loop over the rows it locked. Each is proved to be a run of the protocol.
 */
module InvitationService {
  import opened Base
  import opened Invitation
  import opened InvitationResults
  import opened InvitationRules
  import M = Membership

  predicate Strangers(steps: seq<Step>, r: nat) {
    forall i :: 0 <= i < |steps| ==> !((steps[i].Read? || steps[i].Ask? || steps[i].Commit? || steps[i].Crash?) && steps[i].r == r)
  }

  lemma OthersKeepRequest(w: World, s: Step, r: nat)
    requires Strangers([s], r) && r < |w.requests|
    ensures r < |Take(w, s).requests| && Take(w, s).requests[r] == w.requests[r]
  {
    assert [s][0] == s;
  }

  /** One of the service's Membership identifiers, one event identifier, and the fate of the commit. */
  datatype Minted = Minted(member: Id, event: Id, fate: Fate)

  /** The invitation is accepted, by this request's caller, with its token, before expiry, and its Membership granted. */
  ghost predicate HeldBy(w: World, i: nat, q: Request)
    requires i < |w.db.rows|
  {
    var row := w.db.rows[i];
    && row.state == Accepted && row.token == q.token && row.principal == Some(q.caller) && row.acceptedAt == Some(q.at)
    && q.at < row.expiresAt && GrantedFrom(w.db.granted, i)
  }

  /** What the acceptance transaction answers of the invitation its token selects. */
  ghost predicate Settles(db: Db, db': Db, i: nat, r: nat, q: Request, tenant: Id, target: string, minted: Minted, result: Result<nat, Error>)
    requires i < |db.rows|
  {
    if !(Stands(db, i, q.token, q.at) && db.rows[i].tenant == tenant && db.rows[i].target == target) then result == Err(NotAcceptable) && db' == db
    else Ends(db, db', i, r, q, minted, result)
  }

  /** What becomes of an invitation that stands: accepted, with what that writes, or refused with nothing written. */
  ghost predicate Ends(db: Db, db': Db, i: nat, r: nat, q: Request, minted: Minted, result: Result<nat, Error>)
    requires i < |db.rows|
  {
    if Admissible(db, db.rows[i], q.caller, minted.member, minted.event) then
      && result == (if minted.fate == Commits then Ok(i) else Err(DatabaseFault))
      && (if minted.fate == RollsBack then db' == db else JoinedBy(db, db', r, q, i, minted.member, minted.event))
    else result.Err? && BarredAs(db, db.rows[i], q.caller, result.error) && db' == db
  }

  /** What a caller is answered when nothing else runs: by its token, the match, and what stands. */
  ghost predicate Answered(db: Db, db': Db, r: nat, q: Request, answer: Match, minted: Minted, result: Result<nat, Error>) {
    if !Presentable(q.token) then result == Err(TokenMalformed) && db' == db
    else if forall i: nat :: !Stands(db, i, q.token, q.at) then result == Err(NotAcceptable) && db' == db
    else if answer == No then result == Err(NotAcceptable) && db' == db
    else if answer == Unavailable then result == Err(IdentityUnavailable) && db' == db
    else forall i: nat :: Stands(db, i, q.token, q.at) ==> Ends(db, db', i, r, q, minted, result)
  }

  /** In every run the commit step settles the invitation its token selects so. */
  lemma CommitDecides(history: seq<Step>, w: World, r: nat, minted: Minted)
    requires w == Exec(START, history) && r < |w.requests| && w.requests[r].pc.Committing?
    ensures
      var q := w.requests[r];
      var done := AcceptTx(w.db, r, q.caller, q.token, q.at, q.pc.tenant, q.pc.target, minted.member, minted.event);
      var result := if done.Err? then Err(done.error) else if minted.fate == Commits then Ok(done.value.1) else Err(DatabaseFault);
      var db := if done.Err? || minted.fate == RollsBack then w.db else done.value.0;
      forall i: nat :: i < |w.db.rows| && w.db.rows[i].token == q.token ==> Settles(w.db, db, i, r, q, q.pc.tenant, q.pc.target, minted, result)
  {
    RunKeeps(history);
    var q := w.requests[r];
    assert TokensUnique(w.db.rows) && RowsOk(w.db.rows, w.confirmed) by { Unfold(w); }
    forall i: nat | i < |w.db.rows| && w.db.rows[i].token == q.token
      ensures
        var done := AcceptTx(w.db, r, q.caller, q.token, q.at, q.pc.tenant, q.pc.target, minted.member, minted.event);
        var result := if done.Err? then Err(done.error) else if minted.fate == Commits then Ok(done.value.1) else Err(DatabaseFault);
        Settles(w.db, if done.Err? || minted.fate == RollsBack then w.db else done.value.0, i, r, q, q.pc.tenant, q.pc.target, minted, result)
    {
      AcceptDecides(w.db, w.confirmed, r, q, q.pc.tenant, q.pc.target, minted.member, minted.event, i);
    }
  }

  class Service {
    var world: World

    /** Every step taken so far, by anybody. */
    ghost var history: seq<Step>

    ghost predicate Valid()
      reads this
    {
      world == Exec(START, history)
    }

    constructor ()
      ensures Valid() && history == []
    {
      world, history := START, [];
    }

    ghost method Happened(s: Step)
      requires world == Take(Exec(START, history), s)
      modifies this`history
      ensures Valid() && history == old(history) + [s]
    {
      assert (history + [s])[..|history|] == history;
      history := history + [s];
    }

    method Other(s: Step, r: nat)
      requires Valid() && Strangers([s], r) && r < |world.requests|
      modifies this
      ensures Valid() && history == old(history) + [s]
      ensures r < |world.requests| && world.requests[r] == old(world).requests[r]
    {
      OthersKeepRequest(world, s, r);
      world := Take(world, s);
      Happened(s);
    }

    /** Other requests run. */
    method Interleave(others: seq<Step>, r: nat)
      requires Valid() && Strangers(others, r) && r < |world.requests|
      modifies this
      ensures Valid() && history == old(history) + others
      ensures r < |world.requests| && world.requests[r] == old(world).requests[r]
      ensures others == [] ==> world == old(world)
    {
      for i := 0 to |others|
        invariant Valid() && history == old(history) + others[..i]
        invariant r < |world.requests| && world.requests[r] == old(world).requests[r]
        invariant others == [] ==> world == old(world)
      {
        Other(others[i], r);
        assert others[..i + 1] == others[..i] + [others[i]];
      }
      assert others[..|others|] == others;
    }

    /** The transaction that accepts: reload by token, recheck, settle the row, grant, publish. */
    method Accepts(r: nat, row: Pc, minted: Minted) returns (result: Result<nat, Error>)
      requires Valid() && r < |world.requests| && world.requests[r].pc == row && row.Committing?
      modifies this
      ensures Valid() && history == old(history) + [Commit(r, minted.member, minted.event, minted.fate)]
      ensures world == CommitStep(old(world), r, minted.member, minted.event, minted.fate)
      ensures world.requests[r].pc == if result.Ok? then Joined(result.value) else Refused(result.error)
      ensures forall i: nat :: i < |old(world).db.rows| && old(world).db.rows[i].token == old(world).requests[r].token ==>
                Settles(old(world).db, world.db, i, r, old(world).requests[r], row.tenant, row.target, minted, result)
    {
      CommitDecides(history, world, r, minted);
      var q := world.requests[r];
      var db := world.db;
      var found := ByToken(db.rows, q.token);
      result := Err(NotAcceptable);
      if found.Some? && found.value < |db.rows| {
        var i := found.value;
        var loaded := db.rows[i];
        if loaded.tenant == row.tenant && loaded.state == Pending && !ExpiredAt(loaded, q.at) && loaded.target == row.target {
          if loaded.tenant !in db.known {
            result := Err(DatabaseFault);
          } else if loaded.tenant !in db.active {
            result := Err(TenantNotActive);
          } else if ActiveMember(db.members, q.caller, loaded) {
            result := Err(AlreadyMember);
          } else {
            loaded := loaded.(state := Accepted, acceptedAt := Some(q.at), principal := Some(q.caller));
            db := db.(rows := db.rows[i := loaded]);
            var granted := M.GrantWithin(db.members, row.tenant, GrantOf(loaded, q.caller, q.at), minted.member, minted.event);
            if granted.Err? {
              result := Err(MembershipRefused(granted.error));
            } else {
              db := db.(members := granted.value, notices := db.notices + [Moved(i, Accept)],
                        granted := db.granted + [Granting(r, i, minted.member, minted.event)]);
              result := if minted.fate == Commits then Ok(i) else Err(DatabaseFault);
              if minted.fate != RollsBack {
                world := world.(db := db);
              }
            }
          }
        }
      }
      world := Put(world, r, if result.Ok? then Joined(result.value) else Refused(result.error));
      Happened(Commit(r, minted.member, minted.event, minted.fate));
    }

    /**
     Accept: the narrow read, the match, and the transaction, with other requests before each. A
     caller told it joined holds the Membership its invitation describes.
     */
    method AcceptInvitation(caller: Id, token: string, at: int, answer: Match, minted: Minted, others: seq<seq<Step>>)
      returns (r: nat, result: Result<nat, Error>)
      requires Valid() && |others| == 3 && forall k :: 0 <= k < 3 ==> Strangers(others[k], |world.requests|)
      modifies this
      ensures Valid() && r == |old(world).requests| && r < |world.requests|
      ensures result.Ok? ==> result.value < |world.db.rows| && HeldBy(world, result.value, Request(caller, token, at, Reading)) && answer == Yes
      ensures !Presentable(token) ==> result == Err(TokenMalformed)
      ensures Presentable(token) && answer == No ==> result == Err(NotAcceptable)
      ensures (forall k :: 0 <= k < 3 ==> others[k] == []) ==>
                Answered(old(world).db, world.db, r, Request(caller, token, at, Reading), answer, minted, result)
    {
      WellFormedExactlyWhen(token);
      r := Arrives(caller, token, at);
      if !WellFormed(token) {
        return r, Err(TokenMalformed);
      }
      Interleave(others[0], r);
      Reads(r);
      if world.requests[r].pc.Refused? {
        return r, Err(NotAcceptable);
      }
      Interleave(others[1], r);
      Asks(r, answer);
      if answer != Yes {
        return r, Err(if answer == No then NotAcceptable else IdentityUnavailable);
      }
      result := Joins(r, minted, others[2]);
    }

    /** The last phase: whatever ran since the match, a caller told it joined holds what its invitation describes. */
    method Joins(r: nat, minted: Minted, others: seq<Step>) returns (result: Result<nat, Error>)
      requires Valid() && r < |world.requests| && world.requests[r].pc.Committing? && Strangers(others, r)
      modifies this
      ensures Valid() && r < |world.requests|
      ensures
        var q := old(world).requests[r];
        && (result.Ok? ==> result.value < |world.db.rows| && HeldBy(world, result.value, q))
        && (others == [] ==> forall i: nat :: i < |old(world).db.rows| && old(world).db.rows[i].token == q.token ==>
              Settles(old(world).db, world.db, i, r, q, q.pc.tenant, q.pc.target, minted, result))
    {
      ghost var q := world.requests[r];
      Interleave(others, r);
      result := Accepts(r, world.requests[r].pc, minted);
      if result.Ok? {
        RunKeeps(history);
        JoinedHolds(world, r);
      }
    }

    method Arrives(caller: Id, token: string, at: int) returns (r: nat)
      requires Valid()
      modifies this
      ensures Valid() && r == |old(world).requests| && r < |world.requests|
      ensures world.requests[r] == Request(caller, token, at, if WellFormed(token) then Reading else Refused(TokenMalformed))
      ensures world.requests[r].pc.Reading? <==> Presentable(token)
      ensures world.db == old(world).db
    {
      WellFormedExactlyWhen(token);
      r := |world.requests|;
      world := world.(requests := world.requests + [Request(caller, token, at, if WellFormed(token) then Reading else Refused(TokenMalformed))]);
      Happened(Arrive(caller, token, at));
    }

    method Reads(r: nat)
      requires Valid() && r < |world.requests| && world.requests[r].pc.Reading?
      modifies this
      ensures Valid() && world == Put(old(world), r, ReadRow(old(world).db, old(world).requests[r]))
      ensures world.requests[r].pc.Matching? || world.requests[r].pc == Refused(NotAcceptable)
      ensures
        var q := old(world).requests[r];
        && (world.requests[r].pc.Matching? <==> exists i: nat :: Stands(world.db, i, q.token, q.at))
        && forall i: nat :: Stands(world.db, i, q.token, q.at) ==> world.requests[r].pc == Matching(world.db.rows[i].tenant, world.db.rows[i].target)
    {
      assert TokensUnique(world.db.rows) by {
        RunKeeps(history);
        Unfold(world);
      }
      ReadsExactlyWhen(world.db, world.requests[r]);
      world := Put(world, r, ReadRow(world.db, world.requests[r]));
      Happened(Read(r));
    }

    method Asks(r: nat, answer: Match)
      requires Valid() && r < |world.requests| && world.requests[r].pc.Matching?
      modifies this
      ensures Valid() && world == AskStep(old(world), r, answer)
      ensures world.db == old(world).db && |world.requests| == |old(world).requests|
      ensures
        var pc := old(world).requests[r].pc;
        world.requests[r] == old(world).requests[r].(pc :=
          if answer == Yes then Committing(pc.tenant, pc.target) else if answer == No then Refused(NotAcceptable) else Refused(IdentityUnavailable))
      ensures world.confirmed == old(world).confirmed + if answer == Yes then {(old(world).requests[r].caller, old(world).requests[r].pc.target)} else {}
    {
      world := AskStep(world, r, answer);
      Happened(Ask(r, answer));
    }

    /** Issues an invitation, unless one to the same person in the same context is outstanding. */
    method Issues(tenant: Id, workspace: Id, target: string, subjectType: string, ttl: int, token: string, at: int) returns (result: Result<nat, Error>)
      requires Valid() && !TokenUsed(world.db.rows, token)
      modifies this
      ensures Valid() && history == old(history) + [Issue(tenant, workspace, target, subjectType, ttl, token, at)]
      ensures
        var row := IssuedRow(tenant, workspace, target, subjectType, ttl, token, at);
        var asked := Says(target) && (subjectType == "human" || subjectType == "workload");
        && (result.Ok? <==> asked && 0 <= ttl <= 30 * DAYS && !Outstands(old(world).db.rows, row))
        && (result.Ok? ==> result.value == |old(world).db.rows| && world.db.rows == old(world).db.rows + [row])
        && (result.Err? ==> world == old(world) && result.error == if !asked then Invalid else if ttl < 0 || ttl > 30 * DAYS then LifetimeRefused else DatabaseFault)
    {
      IssueExactlyWhen(world.db, tenant, workspace, target, subjectType, ttl, token, at);
      if Blank(target) || (subjectType != "human" && subjectType != "workload") {
        result := Err(Invalid);
      } else {
        var lifetime := if ttl == 0 then DEFAULT_TTL else ttl;
        if lifetime < 0 || lifetime > MAX_TTL {
          result := Err(LifetimeRefused);
        } else {
          var i := |world.db.rows|;
          var row := Row(tenant, workspace, target, token, subjectType, Pending, None, at + lifetime, None, None);
          if SlotTaken(world.db.rows, i, row) {
            result := Err(DatabaseFault);
          } else {
            world := world.(db := world.db.(rows := world.db.rows + [row], notices := world.db.notices + [Requested(i)]));
            result := Ok(i);
          }
        }
      }
      Happened(Issue(tenant, workspace, target, subjectType, ttl, token, at));
    }

    /** Withdraws a pending invitation of the caller's Tenant. */
    method Revokes(tenant: Id, i: nat, at: int) returns (result: Result<Row, Error>)
      requires Valid()
      modifies this
      ensures Valid() && history == old(history) + [Withdraw(tenant, i, at)]
      ensures result.Ok? <==> i < |old(world).db.rows| && old(world).db.rows[i].tenant == tenant && old(world).db.rows[i].state == Pending
      ensures result.Ok? ==> world == old(world).(db := world.db) && |world.db.rows| == |old(world).db.rows| && world.db.rows[i] == result.value
                             && result.value.state == Revoked
      ensures result.Ok? ==> result.value == old(world).db.rows[i].(state := Revoked, revokedAt := Some(at))
                             && world.db.rows == old(world).db.rows[i := result.value]
      ensures result.Err? ==> world == old(world)
      ensures result.Err? ==> result.error == if i < |old(world).db.rows| && old(world).db.rows[i].tenant == tenant then Settled else NotFound
    {
      if i >= |world.db.rows| || world.db.rows[i].tenant != tenant {
        result := Err(NotFound);
      } else {
        var loaded := world.db.rows[i];
        var next := Resolve(Revoke, loaded.state);
        if next.Err? {
          result := Err(next.error);
        } else {
          loaded := loaded.(state := Revoked, revokedAt := Some(at));
          world := world.(db := world.db.(rows := world.db.rows[i := loaded], notices := world.db.notices + [Moved(i, Revoke)]));
          result := Ok(loaded);
        }
      }
      Happened(Withdraw(tenant, i, at));
    }

    /**
     The sweep over the rows its query locked: each expires, once, and says so; nothing else changes. When
     it reports fewer than it had room for, no lapsed row it could have locked is left.
     */
    method ExpireLapsed(at: int, now: int, size: int, picked: seq<nat>, locked: set<nat>) returns (result: Result<nat, Error>)
      requires Valid() && (size > 0 ==> Query(world.db.rows, picked, at, now, size, locked))
      modifies this
      ensures Valid() && history == old(history) + [Sweep(at, now, size, picked, locked)]
      ensures result == (if size <= 0 then Err(Invalid) else Ok(|picked|)) && (size <= 0 ==> world == old(world))
      ensures |world.db.rows| == |old(world).db.rows|
      ensures size > 0 ==> forall i :: 0 <= i < |world.db.rows| ==>
                world.db.rows[i] == if i in picked then old(world).db.rows[i].(state := Expired) else old(world).db.rows[i]
      ensures result.Ok? && result.value < size ==>
                forall i :: 0 <= i < |world.db.rows| && i !in locked ==>
                  !(world.db.rows[i].state == Pending && world.db.rows[i].expiresAt <= at && world.db.rows[i].expiresAt <= now)
    {
      if size <= 0 {
        Happened(Sweep(at, now, size, picked, locked));
        return Err(Invalid);
      }
      var db, expired := ExpiresEach(world.db, picked, at, now);
      Swept(world.db, picked, at, now, size, locked);
      world := world.(db := db);
      Happened(Sweep(at, now, size, picked, locked));
      return Ok(expired);
    }
  }

  /** The loop over the rows the query locked. */
  method ExpiresEach(start: Db, picked: seq<nat>, at: int, now: int) returns (db: Db, expired: nat)
    requires Selected(start.rows, picked, at, now)
    ensures db == ExpireEach(start, picked) && expired == |picked|
  {
    db, expired := start, 0;
    for k := 0 to |picked|
      invariant db == ExpireEach(start, picked[..k]) && expired == k
    {
      assert picked[..k + 1][..k] == picked[..k];
      var i := picked[k];
      SweepRows(start, picked[..k], i);
      var next := Resolve(Expire, db.rows[i].state);
      assert next.Ok?;
      db := db.(rows := db.rows[i := db.rows[i].(state := next.value)], notices := db.notices + [Moved(i, Expire)]);
      expired := expired + 1;
    }
    assert picked[..|picked|] == picked;
  }

  /** What the whole sweep leaves of the rows. */
  lemma Swept(db: Db, picked: seq<nat>, at: int, now: int, size: int, locked: set<nat>)
    requires size > 0 && Query(db.rows, picked, at, now, size, locked)
    ensures
      var rows := ExpireEach(db, picked).rows;
      && (forall i :: 0 <= i < |rows| ==> rows[i] == if i in picked then db.rows[i].(state := Expired) else db.rows[i])
      && (|picked| < size ==> forall i :: 0 <= i < |rows| && i !in locked ==> !Lapsed(rows[i], at, now))
  {
    forall i | 0 <= i < |db.rows| ensures ExpireEach(db, picked).rows[i] == if i in picked then db.rows[i].(state := Expired) else db.rows[i] {
      SweepRows(db, picked, i);
    }
  }

  /** Who is told it joined holds what its invitation describes. */
  lemma JoinedHolds(w: World, r: nat)
    requires Inv(w) && r < |w.requests| && w.requests[r].pc.Joined?
    ensures
      var i := w.requests[r].pc.invitation;
      && i < |w.db.rows| && GrantedFrom(w.db.granted, i) && w.db.rows[i].state == Accepted
      && w.db.rows[i].token == w.requests[r].token && w.db.rows[i].principal == Some(w.requests[r].caller)
      && w.db.rows[i].acceptedAt == Some(w.requests[r].at) && w.requests[r].at < w.db.rows[i].expiresAt
  {
    var k := TheGranting(w, r);
    TheRow(w, w.requests[r].pc.invitation);
  }
}
