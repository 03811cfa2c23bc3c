/**
 When an invitation is issued, read, matched and accepted, and what each leaves, said of rows, texts
 and clock readings alone (internal/invitation/service.go, state.go).
 */
module InvitationRules {
  import opened Base
  import opened Invitation
  import opened InvitationResults
  import opened MembershipRules
  import P = Projection
  import M = Membership

  // ----- tokens

  /** A letter, a digit, '-' or '_'. */
  ghost predicate UrlChar(c: char) {
    || ('a' as int <= c as int <= 'z' as int) || ('A' as int <= c as int <= 'Z' as int) || ('0' as int <= c as int <= '9' as int)
    || c == '-' || c == '_'
  }

  ghost function Breaks(token: string): nat {
    if token == "" then 0 else (if token[0] == '\r' || token[0] == '\n' then 1 else 0) + Breaks(token[1..])
  }

  /** Forty-three characters of the URL alphabet, but for line breaks, of which the rest can be decoded. */
  ghost predicate Presentable(token: string) {
    && |token| == 43
    && (forall i :: 0 <= i < |token| ==> UrlChar(token[i]) || token[i] == '\r' || token[i] == '\n')
    && (43 - Breaks(token)) % 4 != 1
  }

  lemma {:induction false} DigitsAre(token: string)
    ensures |Digits(token)| + Breaks(token) == |token|
    ensures (forall c :: c in Digits(token) ==> Base64(c)) <==>
              forall i :: 0 <= i < |token| ==> UrlChar(token[i]) || token[i] == '\r' || token[i] == '\n'
  {
    if token != "" {
      var rest := token[1..];
      DigitsAre(rest);
      assert token[0] in "\r\n" <==> token[0] == '\r' || token[0] == '\n' by {
        assert "\r\n"[0] == '\r' && "\r\n"[1] == '\n';
      }
      assert forall i :: 1 <= i < |token| ==> token[i] == rest[i - 1];
      assert forall i :: 0 <= i < |rest| ==> rest[i] == token[i + 1];
      if token[0] in "\r\n" {
        assert Digits(token) == Digits(rest);
      } else {
        assert Digits(token) == [token[0]] + Digits(rest);
        assert token[0] in Digits(token);
        assert forall c :: c in Digits(token) <==> c == token[0] || c in Digits(rest);
        assert Base64(token[0]) <==> UrlChar(token[0]);
      }
    }
  }

  lemma WellFormedExactlyWhen(token: string)
    ensures WellFormed(token) <==> Presentable(token)
  {
    DigitsAre(token);
  }

  lemma {:induction false} NoBreaks(token: string)
    requires forall i :: 0 <= i < |token| ==> UrlChar(token[i])
    ensures Breaks(token) == 0
  {
    if token != "" {
      assert UrlChar(token[0]);
      NoBreaks(token[1..]);
    }
  }

  /** Every token this service issues can be presented: forty-three characters of the alphabet. */
  lemma IssuedIsPresentable(token: string)
    requires |token| == 43 && forall i :: 0 <= i < |token| ==> UrlChar(token[i])
    ensures WellFormed(token)
  {
    NoBreaks(token);
    WellFormedExactlyWhen(token);
  }

  // ----- addresses

  ghost predicate Space(c: char) {
    c == ' ' || c == '\t' || c == '\n' || c == '\r'
  }

  /** s from i to j is what is left when the white space around it is taken off. */
  ghost predicate Core(s: string, i: nat, j: nat) {
    && i <= j <= |s|
    && (forall k :: 0 <= k < i ==> Space(s[k])) && (forall k :: j <= k < |s| ==> Space(s[k]))
    && (i < j ==> !Space(s[i]) && !Space(s[j - 1]))
  }

  ghost function SmallLetter(c: char): char {
    if 'A' as int <= c as int <= 'Z' as int then (c as int + 32) as char else c
  }

  lemma IsSpaceExactlyWhen(c: char)
    ensures IsSpace(c) <==> Space(c)
  {
    assert " \t\n\r"[0] == ' ' && " \t\n\r"[1] == '\t' && " \t\n\r"[2] == '\n' && " \t\n\r"[3] == '\r';
  }

  lemma {:induction false} TrimLeftIs(s: string) returns (i: nat)
    ensures i <= |s| && TrimLeft(s) == s[i..] && (forall k :: 0 <= k < i ==> Space(s[k])) && (i < |s| ==> !Space(s[i]))
  {
    if s == "" {
      i := 0;
    } else {
      IsSpaceExactlyWhen(s[0]);
      if IsSpace(s[0]) {
        var n := TrimLeftIs(s[1..]);
        i := n + 1;
        assert forall k :: 1 <= k < i ==> s[k] == s[1..][k - 1];
      } else {
        i := 0;
      }
    }
  }

  lemma {:induction false} TrimRightIs(s: string) returns (j: nat)
    ensures j <= |s| && TrimRight(s) == s[..j] && (forall k :: j <= k < |s| ==> Space(s[k])) && (j > 0 ==> !Space(s[j - 1]))
  {
    if s == "" {
      j := 0;
    } else {
      IsSpaceExactlyWhen(s[|s| - 1]);
      if IsSpace(s[|s| - 1]) {
        j := TrimRightIs(s[..|s| - 1]);
        assert s[..|s| - 1][..j] == s[..j];
      } else {
        j := |s|;
        assert s[..j] == s;
      }
    }
  }

  /** The normal form is the address without the white space around it, in small letters. */
  lemma NormalIs(s: string) returns (i: nat, j: nat)
    ensures Core(s, i, j) && |Normal(s)| == j - i && forall k :: 0 <= k < j - i ==> Normal(s)[k] == SmallLetter(s[i..j][k])
  {
    i := TrimLeftIs(s);
    var left := TrimLeft(s);
    var n := TrimRightIs(left);
    j := i + n;
    assert forall k :: 0 <= k < |left| ==> left[k] == s[i + k];
    assert forall k :: j <= k < |s| ==> s[k] == left[k - i];
    assert left[..n] == s[i..j];
  }

  /** Letter for letter the same, but for case. */
  ghost predicate Alike(a: string, b: string) {
    |a| == |b| && forall n :: 0 <= n < |a| ==> SmallLetter(a[n]) == SmallLetter(b[n])
  }

  /** Two spellings of one address: the same but for case and the white space around. */
  ghost predicate SameAddress(a: string, b: string) {
    exists i: nat, j: nat, k: nat, l: nat :: Core(a, i, j) && Core(b, k, l) && Alike(a[i..j], b[k..l])
  }

  lemma CoreIsUnique(s: string, i: nat, j: nat, k: nat, l: nat)
    requires Core(s, i, j) && Core(s, k, l)
    ensures s[i..j] == s[k..l]
  {
    if i < j {
      assert !Space(s[i]) && !Space(s[j - 1]);
    }
    if k < l {
      assert !Space(s[k]) && !Space(s[l - 1]);
    }
  }

  lemma AlikeExactlyWhen(a: string, b: string, x: string, y: string)
    requires |x| == |a| && forall n :: 0 <= n < |a| ==> x[n] == SmallLetter(a[n])
    requires |y| == |b| && forall n :: 0 <= n < |b| ==> y[n] == SmallLetter(b[n])
    ensures Alike(a, b) <==> x == y
  {
    if x == y {
      forall n | 0 <= n < |a| ensures SmallLetter(a[n]) == SmallLetter(b[n]) {
        assert x[n] == y[n];
      }
    }
  }

  lemma SameAddressExactlyWhen(a: string, b: string)
    ensures SameAddress(a, b) <==> Normal(a) == Normal(b)
  {
    var i, j := NormalIs(a);
    var k, l := NormalIs(b);
    AlikeExactlyWhen(a[i..j], b[k..l], Normal(a), Normal(b));
    if SameAddress(a, b) {
      var i': nat, j': nat, k': nat, l': nat :| Core(a, i', j') && Core(b, k', l') && Alike(a[i'..j'], b[k'..l']);
      CoreIsUnique(a, i, j, i', j');
      CoreIsUnique(b, k, l, k', l');
    }
  }

  // ----- issuing

  ghost predicate SameContext(a: Row, b: Row) {
    a.tenant == b.tenant && (if a.workspace == NIL then a.tenant else a.workspace) == (if b.workspace == NIL then b.tenant else b.workspace)
  }

  /** An invitation to the same person in the same context is outstanding. */
  ghost predicate Outstands(rows: seq<Row>, row: Row) {
    exists k :: 0 <= k < |rows| && rows[k].state == Pending && SameContext(rows[k], row) && SameAddress(rows[k].target, row.target)
  }

  ghost predicate TokenUsed(rows: seq<Row>, token: string) {
    exists k :: 0 <= k < |rows| && rows[k].token == token
  }

  const DAYS := 24 * 60 * 60 * 1_000_000_000

  /** The row an issue writes: pending, for seven days unless another lifetime is asked for. */
  ghost function IssuedRow(tenant: Id, workspace: Id, target: string, subjectType: string, ttl: int, token: string, at: int): Row {
    Row(tenant, workspace, target, token, subjectType, Pending, None, if ttl == 0 then at + 7 * DAYS else at + ttl, None, None)
  }

  lemma IssueExactlyWhen(db: Db, tenant: Id, workspace: Id, target: string, subjectType: string, ttl: int, token: string, at: int)
    ensures
      var r := IssueTx(db, tenant, workspace, target, subjectType, ttl, token, at);
      var row := IssuedRow(tenant, workspace, target, subjectType, ttl, token, at);
      var asked := Says(target) && (subjectType == "human" || subjectType == "workload");
      && (r.Ok? <==> asked && 0 <= ttl <= 30 * DAYS && !Outstands(db.rows, row) && !TokenUsed(db.rows, token))
      && (r.Ok? ==> r.value == db.(rows := db.rows + [row], notices := db.notices + [Requested(|db.rows|)]))
      && (r.Err? ==> r.error == if !asked then Invalid else if ttl < 0 || ttl > 30 * DAYS then LifetimeRefused else DatabaseFault)
  {
    SaysExactlyWhen(target);
    var row := IssuedRow(tenant, workspace, target, subjectType, ttl, token, at);
    SlotExactlyWhen(db.rows, |db.rows|, row);
  }

  lemma SlotExactlyWhen(rows: seq<Row>, i: nat, row: Row)
    requires i >= |rows| && row.state == Pending
    ensures SlotTaken(rows, i, row) <==> Outstands(rows, row)
  {
    forall k | 0 <= k < |rows| ensures Slot(rows[k]) == Slot(row) <==> SameContext(rows[k], row) && SameAddress(rows[k].target, row.target) {
      SameAddressExactlyWhen(rows[k].target, row.target);
    }
    if Outstands(rows, row) {
      var k :| 0 <= k < |rows| && rows[k].state == Pending && SameContext(rows[k], row) && SameAddress(rows[k].target, row.target);
      assert rows[k].state == Pending && Slot(rows[k]) == Slot(row);
    }
  }

  // ----- reading by token

  /** The row holds the token, is pending and has not expired at the instant. */
  ghost predicate Stands(db: Db, i: nat, token: string, at: int) {
    i < |db.rows| && db.rows[i].token == token && db.rows[i].state == Pending && at < db.rows[i].expiresAt
  }

  lemma TokenFinds(rows: seq<Row>, token: string)
    requires TokensUnique(rows)
    ensures forall i: nat :: i < |rows| && rows[i].token == token ==> ByToken(rows, token) == Some(i)
    ensures ByToken(rows, token).Some? ==> ByToken(rows, token).value < |rows| && rows[ByToken(rows, token).value].token == token
  {
    ByTokenFinds(rows, token);
    forall i: nat | i < |rows| && rows[i].token == token ensures ByToken(rows, token) == Some(i) {
      ByTokenUnique(rows, token, i);
    }
  }

  /** The read goes on to the match exactly for a row that stands, and names that row's Tenant and address. */
  lemma ReadsExactlyWhen(db: Db, q: Request)
    requires TokensUnique(db.rows)
    ensures ReadRow(db, q).Matching? <==> exists i: nat :: Stands(db, i, q.token, q.at)
    ensures forall i: nat :: Stands(db, i, q.token, q.at) ==> ReadRow(db, q) == Matching(db.rows[i].tenant, db.rows[i].target)
    ensures !ReadRow(db, q).Matching? ==> ReadRow(db, q) == Refused(NotAcceptable)
  {
    TokenFinds(db.rows, q.token);
    if ReadRow(db, q).Matching? {
      assert Stands(db, ByToken(db.rows, q.token).value, q.token, q.at);
    }
  }

  // ----- accepting

  /** The caller already holds an active Membership of the invitation's context. */
  ghost predicate MemberThere(members: M.Store, caller: Id, row: Row) {
    exists m :: m in members.rows && members.rows[m].status == M.Active
                && Twins(members.rows[m], M.Row(caller, row.tenant, row.workspace, row.subjectType, M.Active, 1))
  }

  lemma MemberExactlyWhen(members: M.Store, caller: Id, row: Row)
    ensures ActiveMember(members, caller, row) <==> MemberThere(members, caller, row)
  {
  }

  /** The Tenant takes members, the caller is not one, and the new identifiers are new. */
  ghost predicate Admissible(db: Db, row: Row, caller: Id, m: Id, event: Id) {
    && row.tenant in db.known && row.tenant in db.active && !MemberThere(db.members, caller, row)
    && caller != NIL && m !in db.members.rows && !Used(db.members, event)
  }

  /** Why an invitation that stands is refused all the same. */
  ghost predicate BarredAs(db: Db, row: Row, caller: Id, error: Error) {
    if row.tenant !in db.known then error == DatabaseFault
    else if row.tenant !in db.active then error == TenantNotActive
    else if MemberThere(db.members, caller, row) then error == AlreadyMember
    else error.MembershipRefused?
  }

  /**
   The invitation is accepted by the caller at the instant, and grants it one active Membership, of the
   invitation's Tenant, workspace and kind, each with its event; nothing else moves.
   */
  ghost predicate JoinedBy(db: Db, db': Db, r: nat, q: Request, i: nat, m: Id, event: Id)
    requires i < |db.rows|
  {
    var row := db.rows[i];
    var member := M.Row(q.caller, row.tenant, row.workspace, row.subjectType, M.Active, 1);
    && db'.rows == db.rows[i := row.(state := Accepted, principal := Some(q.caller), acceptedAt := Some(q.at))]
    && db'.members.rows == db.members.rows[m := member]
    && db'.members.events == db.members.events + [P.Record(m, 1, M.Body(event, member, M.Grant, M.Direct))]
    && db'.active == db.active && db'.known == db.known && db'.notices == db.notices + [Moved(i, Accept)]
    && db'.granted == db.granted + [Granting(r, i, m, event)]
  }

  /** The transaction on the invitation the token selects, by what it finds there. */
  lemma AcceptDecides(db: Db, confirmed: set<(Id, string)>, r: nat, q: Request, tenant: Id, target: string, m: Id, event: Id, i: nat)
    requires TokensUnique(db.rows) && RowsOk(db.rows, confirmed) && i < |db.rows| && db.rows[i].token == q.token
    ensures
      var result := AcceptTx(db, r, q.caller, q.token, q.at, tenant, target, m, event);
      var stands := Stands(db, i, q.token, q.at) && db.rows[i].tenant == tenant && db.rows[i].target == target;
      && (!stands ==> result == Err(NotAcceptable))
      && (stands ==> (result.Ok? <==> Admissible(db, db.rows[i], q.caller, m, event)))
      && (stands && result.Err? ==> BarredAs(db, db.rows[i], q.caller, result.error))
      && (result.Ok? ==> result.value.1 == i && JoinedBy(db, result.value.0, r, q, i, m, event))
  {
    TokenFinds(db.rows, q.token);
    var row := db.rows[i];
    assert RowOk(row, confirmed);
    MemberExactlyWhen(db.members, q.caller, row);
    UsedExactlyWhen(db.members, event);
    if !ActiveMember(db.members, q.caller, row) {
      IndexNeverRefuses(db.members, q.caller, row, m);
    }
  }
}
