/** What every run of scoped transactions keeps: no privileged write without its evidence. */
module ScopedAccessResults {
  import opened Base
  import opened Admission
  import opened AdmissionResults
  import opened ScopedAccess

  // ----- the invariant

  /** An evidence row that accounts for work in the scope. */
  predicate Accounts(a: Access, s: Scope) {
    a.actor == s.actor && a.correlation == s.correlation && a.authority == s.authority && (s.acting ==> a.tenant == s.tenant)
  }

  ghost predicate Evidenced(audit: seq<Row>, n: nat, s: Scope) {
    exists k :: 0 <= k < n && k < |audit| && Accounts(audit[k].access, s)
  }

  /** Nesting keeps who acts, and only ever narrows to a Tenant. */
  ghost predicate Rooted(root: Scope, s: Scope) {
    && OneKind(root) && !root.acting && OneKind(s) && s.actor == root.actor && s.correlation == root.correlation
    && (s.acting ==> root.provider && s.authority == root.authority)
    && (root.tenant != NIL || s.tenant == NIL ==> s == root)
  }

  ghost predicate HasRow(audit: seq<Row>, c: nat, n: nat) {
    exists k :: 0 <= k < n && k < |audit| && audit[k].call == c
  }

  predicate Admitted(pc: Pc) {
    pc.Ready? || pc.Bound? || pc.Running? || pc.Ended?
  }

  ghost predicate CallOk(audit: seq<Row>, c: nat, call: Call) {
    && Rooted(call.root, call.scope) && call.began <= |audit|
    && (call.scope.acting ==> Evidenced(audit, call.began, call.scope))
    && (Admitted(call.pc) ==> Refusal(call.scope, call.entry, call.reason).None?)
    && (Admitted(call.pc) && Recorded(call.entry) ==> HasRow(audit, c, if call.pc.Ready? then |audit| else call.began))
    && (call.pc.Called? || call.pc.Refused? || call.pc.Unrecorded? || !Recorded(call.entry) ==> !HasRow(audit, c, |audit|))
    && (call.pc.Running? ==>
          && (call.pc.claimed == if MakesClaim(call.entry) then call.key else None)
          && (call.pc.staged != [] ==> !ReadOnly(call.entry)))
  }

  ghost predicate RowOk(w: World, k: nat)
    requires k < |w.audit|
  {
    var c := w.audit[k].call;
    && c < |w.calls| && Recorded(w.calls[c].entry)
    && w.audit[k].access == EvidenceOf(w.calls[c].scope, w.calls[c].entry, w.calls[c].reason, w.calls[c].routeTenant)
    && Refusal(w.calls[c].scope, w.calls[c].entry, w.calls[c].reason).None?
    && forall j :: 0 <= j < k ==> w.audit[j].call != c
  }

  ghost predicate EffectOk(w: World, e: Effect) {
    && e.call < |w.calls| && w.calls[e.call].pc == Ended(true)
    && e.scope == Inner(w.calls[e.call].scope, w.calls[e.call].entry) && e.began == w.calls[e.call].began
    && !ReadOnly(w.calls[e.call].entry)
  }

  /** A key belongs to the committed call that claimed it, and a committed call holds its own. */
  ghost predicate KeysOk(w: World) {
    && (forall k :: k in w.keys ==>
          && w.keys[k] < |w.calls| && w.calls[w.keys[k]].pc == Ended(true)
          && w.calls[w.keys[k]].key == Some(k) && MakesClaim(w.calls[w.keys[k]].entry))
    && (forall c :: 0 <= c < |w.calls| && w.calls[c].pc == Ended(true) && w.calls[c].key.Some? && MakesClaim(w.calls[c].entry) ==>
          w.calls[c].key.value in w.keys && w.keys[w.calls[c].key.value] == c)
  }

  ghost predicate Calls(w: World) {
    forall c :: 0 <= c < |w.calls| ==> CallOk(w.audit, c, w.calls[c])
  }

  ghost predicate Rows(w: World) {
    forall k :: 0 <= k < |w.audit| ==> RowOk(w, k)
  }

  ghost predicate Effects(w: World) {
    forall i :: 0 <= i < |w.effects| ==> EffectOk(w, w.effects[i])
  }

  ghost predicate Inv(w: World) {
    Calls(w) && Rows(w) && Effects(w) && KeysOk(w)
  }

  // ----- one call changes

  /** What of a call may change once it is made. */
  ghost predicate SameCall(a: Call, b: Call) {
    b == a.(pc := b.pc, began := b.began)
  }

  /** A step of one call that writes no evidence and commits nothing. */
  lemma CallMoves(w: World, c: nat, call: Call)
    requires Inv(w) && c < |w.calls| && SameCall(w.calls[c], call) && !w.calls[c].pc.Ended?
    requires call.pc != Ended(true) && CallOk(w.audit, c, call)
    ensures Inv(Put(w, c, call))
  {
    var w' := Put(w, c, call);
    forall k | 0 <= k < |w'.audit| ensures RowOk(w', k) {
      assert RowOk(w, k);
    }
    forall i | 0 <= i < |w'.effects| ensures EffectOk(w', w'.effects[i]) {
      assert EffectOk(w, w.effects[i]);
    }
  }

  /** Evidence only grows, and what rests on it stands. */
  lemma CallStays(audit: seq<Row>, row: Row, c: nat, call: Call)
    requires CallOk(audit, c, call) && row.call != c
    ensures CallOk(audit + [row], c, call)
  {
    var audit' := audit + [row];
    assert forall k :: 0 <= k < |audit| ==> audit'[k] == audit[k];
    if call.scope.acting {
      var k :| 0 <= k < call.began && k < |audit| && Accounts(audit[k].access, call.scope);
      assert Accounts(audit'[k].access, call.scope);
    }
    if HasRow(audit, c, |audit|) {
      var k :| 0 <= k < |audit| && audit[k].call == c;
      assert audit'[k].call == c;
    }
    if Admitted(call.pc) && Recorded(call.entry) {
      var k :| 0 <= k < (if call.pc.Ready? then |audit| else call.began) && k < |audit| && audit[k].call == c;
      assert audit'[k].call == c;
    }
  }

  /** The evidence is committed on its own. */
  lemma RecordCommits(w: World, c: nat, row: Row, w': World)
    requires Inv(w) && c < |w.calls| && w.calls[c].pc.Called?
    requires Refusal(w.calls[c].scope, w.calls[c].entry, w.calls[c].reason).None? && Recorded(w.calls[c].entry)
    requires row == Row(c, EvidenceOf(w.calls[c].scope, w.calls[c].entry, w.calls[c].reason, w.calls[c].routeTenant))
    requires w' == Put(w, c, w.calls[c].(pc := Ready)).(audit := w.audit + [row])
    ensures Inv(w')
  {
    var call := w.calls[c];
    assert CallOk(w.audit, c, call);
    assert w'.audit[|w.audit|] == row;
    forall d | 0 <= d < |w'.calls| ensures CallOk(w'.audit, d, w'.calls[d]) {
      if d != c {
        assert CallOk(w.audit, d, w.calls[d]);
        CallStays(w.audit, row, d, w.calls[d]);
      } else if call.scope.acting {
        var k :| 0 <= k < call.began && k < |w.audit| && Accounts(w.audit[k].access, call.scope);
        assert Accounts(w'.audit[k].access, call.scope);
      }
    }
    forall k | 0 <= k < |w'.audit| ensures RowOk(w', k) {
      if k < |w.audit| {
        assert RowOk(w, k);
      } else {
        forall j | 0 <= j < k ensures w'.audit[j].call != c {
          assert w'.audit[j] == w.audit[j];
        }
      }
    }
    forall i | 0 <= i < |w'.effects| ensures EffectOk(w', w'.effects[i]) {
      assert EffectOk(w, w.effects[i]);
    }
  }

  lemma RecordKeeps(w: World, c: nat, fails: bool)
    requires Inv(w) && c < |w.calls| && w.calls[c].pc.Called?
    ensures Inv(RecordStep(w, c, fails))
  {
    var call := w.calls[c];
    assert CallOk(w.audit, c, call);
    if Refusal(call.scope, call.entry, call.reason).None? && Recorded(call.entry) && !fails {
      RecordCommits(w, c, Row(c, EvidenceOf(call.scope, call.entry, call.reason, call.routeTenant)), RecordStep(w, c, fails));
    } else {
      CallMoves(w, c, RecordStep(w, c, fails).calls[c]);
    }
  }

  /** The transaction begins after the evidence it needs. */
  lemma BeginKeeps(w: World, c: nat, fails: bool)
    requires Inv(w) && c < |w.calls| && w.calls[c].pc.Ready?
    ensures Inv(Take(w, Begin(c, fails)))
  {
    var call := w.calls[c];
    assert CallOk(w.audit, c, call);
    var call' := call.(began := |w.audit|, pc := if fails then Ended(false) else Bound);
    if call.scope.acting {
      var k :| 0 <= k < call.began && k < |w.audit| && Accounts(w.audit[k].access, call.scope);
      assert Evidenced(w.audit, |w.audit|, call.scope);
    }
    CallMoves(w, c, call');
  }

  lemma EndEffects(w: World, c: nat, w': World)
    requires Effects(w) && c < |w.calls| && CallOk(w.audit, c, w.calls[c]) && w.calls[c].pc.Running? && w' == EndStep(w, c, true)
    requires w.calls[c].pc.claimed.Some? ==> w.calls[c].pc.claimed.value !in w.keys
    ensures Effects(w')
  {
    var call := w.calls[c];
    forall i | 0 <= i < |w'.effects| ensures EffectOk(w', w'.effects[i]) {
      if i < |w.effects| {
        assert EffectOk(w, w.effects[i]);
      } else {
        assert w'.effects[i] == EffectsOf(c, call, call.pc.staged)[i - |w.effects|];
      }
    }
  }

  lemma EndKeys(w: World, c: nat, w': World)
    requires KeysOk(w) && c < |w.calls| && CallOk(w.audit, c, w.calls[c]) && w.calls[c].pc.Running? && w' == EndStep(w, c, true)
    requires w.calls[c].pc.claimed.Some? ==> w.calls[c].pc.claimed.value !in w.keys
    ensures KeysOk(w')
  {
  }

  /** A key and the writes it guards commit together. */
  lemma EndCommits(w: World, c: nat, w': World)
    requires Inv(w) && c < |w.calls| && w.calls[c].pc.Running? && w' == EndStep(w, c, true)
    requires w.calls[c].pc.claimed.Some? ==> w.calls[c].pc.claimed.value !in w.keys
    ensures Inv(w')
  {
    assert CallOk(w.audit, c, w.calls[c]);
    EndEffects(w, c, w');
    EndKeys(w, c, w');
    assert w'.audit == w.audit;
    forall d | 0 <= d < |w'.calls| ensures CallOk(w'.audit, d, w'.calls[d]) {
      assert CallOk(w.audit, d, w.calls[d]);
    }
    forall k | 0 <= k < |w'.audit| ensures RowOk(w', k) {
      assert RowOk(w, k);
    }
  }

  lemma ScopeOpens(s: Scope, root: Scope, e: Entry, reason: string)
    requires Rooted(root, s) && Refusal(s, e, reason).None?
    ensures Rooted(root, Inner(s, e))
  {
    OpensOnlyItsOwn(s, e, reason);
  }

  /** Work inside a call is accounted for by evidence committed before its transaction began. */
  lemma CallAccounted(w: World, c: nat)
    requires Inv(w) && c < |w.calls| && (w.calls[c].pc.Running? || w.calls[c].pc.Ended?)
    ensures
      var inner := Inner(w.calls[c].scope, w.calls[c].entry);
      inner.authority.Some? ==> Evidenced(w.audit, w.calls[c].began, inner)
  {
    var call := w.calls[c];
    assert CallOk(w.audit, c, call);
    OpensOnlyItsOwn(call.scope, call.entry, call.reason);
    if Recorded(call.entry) {
      var k :| 0 <= k < call.began && k < |w.audit| && w.audit[k].call == c;
      assert RowOk(w, k);
      assert Accounts(w.audit[k].access, Inner(call.scope, call.entry));
    }
  }

  /** A call newly made, in a scope already accounted for. */
  lemma NewCall(w: World, call: Call, w': World)
    requires Inv(w) && call.pc.Called? && call.began == |w.audit| && Rooted(call.root, call.scope)
    requires call.scope.acting ==> Evidenced(w.audit, |w.audit|, call.scope)
    requires w' == w.(calls := w.calls + [call])
    ensures Inv(w')
  {
    var n := |w.calls|;
    forall k | 0 <= k < |w'.audit| ensures RowOk(w', k) && w'.audit[k].call != n {
      assert RowOk(w, k);
    }
    forall c | 0 <= c < |w'.calls| ensures CallOk(w'.audit, c, w'.calls[c]) {
      if c < n {
        assert CallOk(w.audit, c, w.calls[c]);
      }
    }
    forall i | 0 <= i < |w'.effects| ensures EffectOk(w', w'.effects[i]) {
      assert EffectOk(w, w.effects[i]);
    }
  }

  lemma NestKeeps(w: World, c: nat, entry: Entry, reason: string, routeTenant: Id, key: Option<Id>)
    requires Inv(w) && c < |w.calls| && w.calls[c].pc.Running?
    ensures Inv(Take(w, Nest(c, entry, reason, routeTenant, key)))
  {
    var call := w.calls[c];
    assert CallOk(w.audit, c, call);
    var inner := Inner(call.scope, call.entry);
    ScopeOpens(call.scope, call.root, call.entry, call.reason);
    CallAccounted(w, c);
    if inner.acting {
      var k :| 0 <= k < call.began && k < |w.audit| && Accounts(w.audit[k].access, inner);
      assert Evidenced(w.audit, |w.audit|, inner);
    }
    NewCall(w, Call(call.root, inner, entry, reason, routeTenant, key, |w.audit|, Called), Take(w, Nest(c, entry, reason, routeTenant, key)));
  }

  lemma StepKeeps(w: World, s: Step)
    requires Inv(w)
    ensures Inv(Take(w, s))
  {
    match s
    case Enter(root, entry, reason, routeTenant, key) =>
      if OneKind(root) && !root.acting {
        NewCall(w, Call(root, root, entry, reason, routeTenant, key, |w.audit|, Called), Take(w, s));
      }
    case Nest(c, entry, reason, routeTenant, key) =>
      if c < |w.calls| && w.calls[c].pc.Running? {
        NestKeeps(w, c, entry, reason, routeTenant, key);
      }
    case Record(c, fails) =>
      if c < |w.calls| && w.calls[c].pc.Called? {
        RecordKeeps(w, c, fails);
      }
    case Begin(c, fails) =>
      if c < |w.calls| && w.calls[c].pc.Ready? {
        BeginKeeps(w, c, fails);
      }
    case End(c, commits) =>
      if c < |w.calls| && w.calls[c].pc.Running? {
        var claimed := w.calls[c].pc.claimed;
        if commits && (claimed.Some? ==> claimed.value !in w.keys) {
          EndCommits(w, c, Take(w, s));
        } else {
          MoveKeeps(w, s, c);
        }
      }
    case _ =>
      if s.c < |w.calls| && Take(w, s) != w {
        MoveKeeps(w, s, s.c);
      }
  }

  /** The steps that only move a call: claiming, writing, rolling back, dying. */
  lemma MoveKeeps(w: World, s: Step, c: nat)
    requires Inv(w) && (s.Claim? || s.Write? || s.End? || s.Crash?) && s.c == c < |w.calls| && Take(w, s) != w
    requires Take(w, s) == Put(w, c, Take(w, s).calls[c]) && Take(w, s).calls[c].pc != Ended(true)
    ensures Inv(Take(w, s))
  {
    assert CallOk(w.audit, c, w.calls[c]);
    CallMoves(w, c, Take(w, s).calls[c]);
  }

  lemma {:induction false} RunKeeps(steps: seq<Step>)
    ensures Inv(Exec(START, steps))
  {
    if steps != [] {
      RunKeeps(steps[..|steps| - 1]);
      StepKeeps(Exec(START, steps[..|steps| - 1]), steps[|steps| - 1]);
    }
  }

  // ----- results

  /**
   Every committed write of a provider, a consumer or a provider acting in a Tenant has an evidence row
   with its actor, correlation and authority, committed before its transaction began; where its own
   entry point records, the row is that call's.
   */
  lemma EffectHasEvidence(steps: seq<Step>, i: nat)
    requires i < |Exec(START, steps).effects|
    ensures
      var w := Exec(START, steps);
      var e := w.effects[i];
      && e.call < |w.calls| && e.began <= |w.audit|
      && (e.scope.authority.Some? ==> Evidenced(w.audit, e.began, e.scope))
      && (Recorded(w.calls[e.call].entry) ==>
            exists k :: 0 <= k < e.began && w.audit[k].call == e.call && Accounts(w.audit[k].access, e.scope))
  {
    RunKeeps(steps);
    var w := Exec(START, steps);
    var e := w.effects[i];
    assert EffectOk(w, e);
    var call := w.calls[e.call];
    assert CallOk(w.audit, e.call, call);
    CallAccounted(w, e.call);
    if Recorded(call.entry) {
      var k :| 0 <= k < call.began && k < |w.audit| && w.audit[k].call == e.call;
      assert RowOk(w, k);
      OpensOnlyItsOwn(call.scope, call.entry, call.reason);
      assert Accounts(w.audit[k].access, e.scope);
    }
  }

  /** A write is the root caller's own, in the Tenant it was bound to; the acting-provider mark is a provider's. */
  lemma EffectIsItsCallers(steps: seq<Step>, i: nat)
    requires i < |Exec(START, steps).effects|
    ensures
      var w := Exec(START, steps);
      var e := w.effects[i];
      e.call < |w.calls| && Rooted(w.calls[e.call].root, e.scope)
  {
    RunKeeps(steps);
    var w := Exec(START, steps);
    assert EffectOk(w, w.effects[i]);
    var call := w.calls[w.effects[i].call];
    assert CallOk(w.audit, w.effects[i].call, call);
    ScopeOpens(call.scope, call.root, call.entry, call.reason);
  }

  /** Every committed write is of an entry point that claims the request's key, and the key is held for it. */
  lemma EffectHoldsItsKey(steps: seq<Step>, i: nat)
    requires i < |Exec(START, steps).effects|
    ensures
      var w := Exec(START, steps);
      var e := w.effects[i];
      && e.call < |w.calls| && MakesClaim(w.calls[e.call].entry)
      && (w.calls[e.call].key.Some? ==> w.calls[e.call].key.value in w.keys && w.keys[w.calls[e.call].key.value] == e.call)
  {
    RunKeeps(steps);
    var w := Exec(START, steps);
    assert EffectOk(w, w.effects[i]);
  }

  /** Nothing takes evidence back, and a call that is over stays as it ended. */
  ghost predicate Kept(w: World, w': World) {
    && w.audit <= w'.audit && |w.calls| <= |w'.calls|
    && forall c :: 0 <= c < |w.calls| ==>
         SameCall(w.calls[c], w'.calls[c]) && (Over(w.calls[c].pc) ==> w'.calls[c] == w.calls[c])
  }

  lemma StepKept(w: World, s: Step)
    ensures Kept(w, Take(w, s))
  {
  }

  lemma {:induction false} RunKept(w: World, steps: seq<Step>)
    ensures Kept(w, Exec(w, steps))
  {
    if steps != [] {
      RunKept(w, steps[..|steps| - 1]);
      StepKept(Exec(w, steps[..|steps| - 1]), steps[|steps| - 1]);
    }
  }

  lemma {:induction false} ExecConcat(w: World, a: seq<Step>, b: seq<Step>)
    ensures Exec(w, a + b) == Exec(Exec(w, a), b)
  {
    if b == [] {
      assert a + b == a;
    } else {
      assert (a + b)[..|a + b| - 1] == a + b[..|b| - 1];
      ExecConcat(w, a, b[..|b| - 1]);
    }
  }

  ghost predicate WroteNothing(w: World, c: nat) {
    && (forall i :: 0 <= i < |w.effects| ==> w.effects[i].call != c)
    && (forall k :: k in w.keys ==> w.keys[k] != c)
  }

  lemma UncommittedWroteNothing(w: World, c: nat)
    requires Inv(w) && c < |w.calls| && w.calls[c].pc != Ended(true)
    ensures WroteNothing(w, c)
  {
    forall i | 0 <= i < |w.effects| ensures w.effects[i].call != c {
      assert EffectOk(w, w.effects[i]);
    }
  }

  /** A call that rolled back keeps its evidence for good, and writes nothing, ever. */
  lemma RollbackKeepsEvidence(steps: seq<Step>, later: seq<Step>, c: nat)
    requires c < |Exec(START, steps).calls| && Exec(START, steps).calls[c].pc == Ended(false)
    ensures
      var w := Exec(Exec(START, steps), later);
      && c < |w.calls| && WroteNothing(w, c)
      && (Recorded(w.calls[c].entry) <==> HasRow(w.audit, c, |w.audit|))
  {
    ExecConcat(START, steps, later);
    RunKeeps(steps + later);
    RunKept(Exec(START, steps), later);
    var w := Exec(Exec(START, steps), later);
    UncommittedWroteNothing(w, c);
    assert CallOk(w.audit, c, w.calls[c]);
  }

  /** A call that dies keeps what evidence it had committed, and writes nothing, ever. */
  lemma CrashKeepsEvidence(steps: seq<Step>, later: seq<Step>, c: nat)
    requires c < |Exec(START, steps).calls| && !Over(Exec(START, steps).calls[c].pc)
    ensures
      var w := Exec(START, steps);
      var w' := Exec(Take(w, Crash(c)), later);
      && c < |w'.calls| && WroteNothing(w', c) && w.audit <= w'.audit
      && (Admitted(w.calls[c].pc) && Recorded(w.calls[c].entry) ==> HasRow(w'.audit, c, |w'.audit|))
  {
    var w := Exec(START, steps);
    RunKeeps(steps);
    assert CallOk(w.audit, c, w.calls[c]);
    ExecConcat(START, steps, [Crash(c)]);
    ExecConcat(START, steps + [Crash(c)], later);
    assert Exec(w, [Crash(c)]) == Take(w, Crash(c)) by { assert [Crash(c)][..0] == []; }
    RunKeeps(steps + [Crash(c)] + later);
    RunKept(Take(w, Crash(c)), later);
    var w' := Exec(Take(w, Crash(c)), later);
    UncommittedWroteNothing(w', c);
    if Admitted(w.calls[c].pc) && Recorded(w.calls[c].entry) {
      var k :| 0 <= k < |w.audit| && w.audit[k].call == c;
      assert w'.audit[k].call == c;
    }
  }

  /** A call whose evidence could not be written, or whose scope does not open it, leaves neither evidence nor writes. */
  lemma UnrecordedLeavesNothing(steps: seq<Step>, later: seq<Step>, c: nat)
    requires c < |Exec(START, steps).calls| && (Exec(START, steps).calls[c].pc.Unrecorded? || Exec(START, steps).calls[c].pc.Refused?)
    ensures
      var w := Exec(Exec(START, steps), later);
      c < |w.calls| && WroteNothing(w, c) && !HasRow(w.audit, c, |w.audit|)
  {
    ExecConcat(START, steps, later);
    RunKeeps(steps + later);
    RunKept(Exec(START, steps), later);
    var w := Exec(Exec(START, steps), later);
    UncommittedWroteNothing(w, c);
    assert CallOk(w.audit, c, w.calls[c]);
  }

  /** Every evidence row is of a call that was admitted, one row a call, and says what that call was. */
  lemma EvidenceIsOfACall(steps: seq<Step>, j: nat, k: nat)
    requires j < |Exec(START, steps).audit| && k < |Exec(START, steps).audit|
    ensures
      var w := Exec(START, steps);
      var c := w.audit[k].call;
      && c < |w.calls| && Recorded(w.calls[c].entry) && Accounts(w.audit[k].access, Inner(w.calls[c].scope, w.calls[c].entry))
      && w.audit[k].access.authority.Some? && w.audit[k].access.reason != ""
      && (w.audit[j].call == c ==> j == k)
  {
    RunKeeps(steps);
    var w := Exec(START, steps);
    assert RowOk(w, j) && RowOk(w, k);
    var c := w.audit[k].call;
    assert CallOk(w.audit, c, w.calls[c]);
    OpensOnlyItsOwn(w.calls[c].scope, w.calls[c].entry, w.calls[c].reason);
  }
}
