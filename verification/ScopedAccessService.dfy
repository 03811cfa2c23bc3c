/** One call of an entry point as it runs: evidence, transaction, binding, claim, body, commit, in that order. */
module ScopedAccessService {
  import opened Base
  import opened Admission
  import opened AdmissionResults
  import opened AdmissionRules
  import opened ScopedAccess
  import opened ScopedAccessResults

  /** Which of a call's own steps fail. */
  datatype Faults = Faults(record: bool, bind: bool, claim: bool, body: bool, commit: bool)

  /** Steps of anybody else, transactions opened inside this call's body included. */
  predicate Strangers(steps: seq<Step>, c: nat) {
    forall i :: 0 <= i < |steps| ==> steps[i].Enter? || steps[i].Nest? || steps[i].c != c
  }

  lemma OneOf(steps: seq<Step>, c: nat, i: nat)
    requires Strangers(steps, c) && i < |steps|
    ensures Strangers([steps[i]], c) && steps[..i + 1] == steps[..i] + [steps[i]]
  {
  }

  /** Nothing of the call fails: its scope opens the entry point, no step of it does, and it writes only where it may. */
  ghost predicate Possible(root: Scope, entry: Entry, reason: string, f: Faults, work: seq<Id>) {
    && Opens(root, entry, reason) && !(f.record && Privileged(root)) && !f.bind && !f.claim && !f.body && !f.commit
    && (work != [] ==> Changes(entry))
  }

  /** The transaction of an admitted call can commit. */
  ghost predicate Commits(entry: Entry, f: Faults, work: seq<Id>) {
    !f.bind && !f.claim && !f.body && !f.commit && (work != [] ==> !ReadOnly(entry))
  }

  /** No other transaction committed under the key this call would claim. */
  ghost predicate KeyFree(w: World, entry: Entry, key: Option<Id>) {
    Changes(entry) && key.Some? ==> key.value !in w.keys
  }

  /** The evidence of the call: its scope's actor, correlation and authority, its reason, and the Tenant bound or named. */
  ghost predicate IsEvidence(row: Row, c: nat, root: Scope, entry: Entry, reason: string, routeTenant: Id) {
    && row.call == c && row.access.actor == root.actor && row.access.correlation == root.correlation && row.access.authority == root.authority
    && (row.access.reason == if root.resolver then "invitation:resolve" else reason)
    && row.access.tenant == RecordedTenant(entry, routeTenant)
  }

  lemma OthersKeepCall(w: World, s: Step, c: nat)
    requires Strangers([s], c) && c < |w.calls|
    ensures c < |Take(w, s).calls| && Take(w, s).calls[c] == w.calls[c]
  {
    assert [s][0] == s;
  }

  ghost predicate Undisturbed(others: seq<seq<Step>>) {
    forall k :: 0 <= k < |others| ==> others[k] == []
  }

  class Pools {
    var world: World

    /** Every step taken so far, by anybody. */
    ghost var history: seq<Step>

    ghost predicate Valid()
      reads this
    {
      world == Exec(START, history)
    }

    constructor ()
      ensures Valid() && history == []
    {
      world, history := START, [];
    }

    ghost method Happened(s: Step)
      requires world == Take(Exec(START, history), s)
      modifies this`history
      ensures Valid() && history == old(history) + [s]
    {
      assert (history + [s])[..|history|] == history;
      history := history + [s];
    }

    method Other(s: Step, c: nat)
      requires Valid() && Strangers([s], c) && c < |world.calls|
      modifies this
      ensures Valid() && history == old(history) + [s]
      ensures c < |world.calls| && world.calls[c] == old(world).calls[c]
    {
      OthersKeepCall(world, s, c);
      world := Take(world, s);
      Happened(s);
    }

    /** Other calls run. */
    method Interleave(others: seq<Step>, c: nat)
      requires Valid() && Strangers(others, c) && c < |world.calls|
      modifies this
      ensures Valid() && history == old(history) + others
      ensures c < |world.calls| && world.calls[c] == old(world).calls[c]
      ensures others == [] ==> world == old(world)
    {
      for i := 0 to |others|
        invariant Valid() && history == old(history) + others[..i]
        invariant c < |world.calls| && world.calls[c] == old(world).calls[c]
        invariant i == 0 ==> world == old(world)
      {
        OneOf(others, c, i);
        Other(others[i], c);
      }
      assert others[..|others|] == others;
    }

    /** The scope is checked, then the evidence is written on the recorder's own connection. */
    method Records(c: nat, fails: bool)
      requires Valid() && c < |world.calls| && world.calls[c].pc.Called?
      modifies this
      ensures Valid() && history == old(history) + [Record(c, fails)] && |world.calls| == |old(world).calls|
      ensures
        var call := old(world).calls[c];
        var refused := Refusal(call.scope, call.entry, call.reason).Some?;
        && world.calls[c] == call.(pc := if refused then Refused else if Recorded(call.entry) && fails then Unrecorded else Ready)
        && world.effects == old(world).effects && world.keys == old(world).keys
    {
      var call := world.calls[c];
      if Refusal(call.scope, call.entry, call.reason).Some? {
        world := Put(world, c, call.(pc := Refused));
      } else if Recorded(call.entry) && fails {
        world := Put(world, c, call.(pc := Unrecorded));
      } else {
        if Recorded(call.entry) {
          world := world.(audit := world.audit + [Row(c, EvidenceOf(call.scope, call.entry, call.reason, call.routeTenant))]);
        }
        world := Put(world, c, call.(pc := Ready));
      }
      Happened(Record(c, fails));
    }

    /** The transaction opens and its scope is bound. */
    method Begins(c: nat, fails: bool)
      requires Valid() && c < |world.calls| && world.calls[c].pc.Ready?
      modifies this
      ensures Valid() && history == old(history) + [Begin(c, fails)] && |world.calls| == |old(world).calls|
      ensures SameCall(old(world).calls[c], world.calls[c]) && world.calls[c].pc == (if fails then Ended(false) else Bound) && world.keys == old(world).keys
    {
      world := Put(world, c, world.calls[c].(began := |world.audit|, pc := if fails then Ended(false) else Bound));
      Happened(Begin(c, fails));
    }

    /** The key the request carries is claimed, where the entry point claims one. */
    method Claims(c: nat, fails: bool)
      requires Valid() && c < |world.calls| && world.calls[c].pc.Bound?
      modifies this
      ensures Valid() && history == old(history) + [Claim(c, fails)] && |world.calls| == |old(world).calls| && world.keys == old(world).keys
      ensures
        var call := old(world).calls[c];
        var key := if MakesClaim(call.entry) then call.key else None;
        world.calls[c] == call.(pc := if fails || (key.Some? && key.value in old(world).keys) then Ended(false) else Running(key, []))
    {
      var call := world.calls[c];
      var pc := Running(None, []);
      if fails {
        pc := Ended(false);
      } else if MakesClaim(call.entry) && call.key.Some? {
        pc := if call.key.value in world.keys then Ended(false) else Running(call.key, []);
      }
      world := Put(world, c, call.(pc := pc));
      Happened(Claim(c, fails));
    }

    /** The body writes one thing after another; a read-only transaction refuses the first. */
    method Writes(c: nat, work: seq<Id>)
      requires Valid() && c < |world.calls| && world.calls[c].pc.Running? && world.calls[c].pc.staged == []
      modifies this
      ensures Valid() && old(history) <= history && |world.calls| == |old(world).calls| && world.keys == old(world).keys
      ensures
        var call := old(world).calls[c];
        world.calls[c] == call.(pc := if work != [] && ReadOnly(call.entry) then Ended(false) else Running(call.pc.claimed, work))
    {
      var call := world.calls[c];
      if work != [] && ReadOnly(call.entry) {
        world := Put(world, c, call.(pc := Ended(false)));
        Happened(Write(c, work[0]));
        return;
      }
      assert world.calls[c] == call.(pc := Running(call.pc.claimed, work[..0]));
      for i := 0 to |work|
        invariant Valid() && old(history) <= history && |world.calls| == |old(world).calls| && world.keys == old(world).keys
        invariant world.calls[c] == call.(pc := Running(call.pc.claimed, work[..i]))
      {
        world := Put(world, c, call.(pc := Running(call.pc.claimed, world.calls[c].pc.staged + [work[i]])));
        Happened(Write(c, work[i]));
        assert work[..i + 1] == work[..i] + [work[i]];
      }
      assert work[..|work|] == work;
    }

    /** The commit: the key and every write, or nothing. */
    method Ends(c: nat, commits: bool)
      requires Valid() && c < |world.calls| && world.calls[c].pc.Running?
      modifies this
      ensures Valid() && history == old(history) + [End(c, commits)] && |world.calls| == |old(world).calls|
      ensures world.calls[c] == old(world).calls[c].(pc := world.calls[c].pc) && world.calls[c].pc.Ended?
      ensures
        var call := old(world).calls[c];
        world.calls[c].pc.committed <==> commits && (call.pc.claimed.Some? ==> call.pc.claimed.value !in old(world).keys)
      ensures
        var call := old(world).calls[c];
        world.effects == old(world).effects + if world.calls[c].pc.committed then EffectsOf(c, call, call.pc.staged) else []
    {
      var call := world.calls[c];
      if !commits || (call.pc.claimed.Some? && call.pc.claimed.value in world.keys) {
        world := Put(world, c, call.(pc := Ended(false)));
      } else {
        if call.pc.claimed.Some? {
          world := world.(keys := world.keys[call.pc.claimed.value := c]);
        }
        world := Put(world, c, call.(pc := Ended(true))).(effects := world.effects + EffectsOf(c, call, call.pc.staged));
      }
      Happened(End(c, commits));
    }

    method Enters(root: Scope, entry: Entry, reason: string, routeTenant: Id, key: Option<Id>) returns (c: nat)
      requires Valid() && OneKind(root) && !root.acting
      modifies this
      ensures Valid() && c == |old(world).calls| && |world.calls| == c + 1 && world.keys == old(world).keys
      ensures SameCall(Call(root, root, entry, reason, routeTenant, key, 0, Called), world.calls[c]) && world.calls[c].pc.Called?
    {
      c := |world.calls|;
      world := world.(calls := world.calls + [Call(root, root, entry, reason, routeTenant, key, |world.audit|, Called)]);
      Happened(Enter(root, entry, reason, routeTenant, key));
    }

    /**
     The whole of a call. It succeeds only by committing; what it wrote is then there, and otherwise
     nothing of it is. With nobody in between, it succeeds exactly when its scope opens the entry point,
     its key is free, nothing failed and it wrote only where it may. Its evidence is there whenever a
     privileged scope opens the entry point and the record could be written, whatever became of the rest.
     */
    method With(root: Scope, entry: Entry, reason: string, routeTenant: Id, key: Option<Id>, f: Faults, work: seq<Id>, others: seq<seq<Step>>)
      returns (c: nat, ok: bool)
      requires Valid() && OneKind(root) && !root.acting
      requires |others| == 4 && forall k :: 0 <= k < 4 ==> Strangers(others[k], |world.calls|)
      modifies this
      ensures Valid() && c == |old(world).calls| && c < |world.calls| && Over(world.calls[c].pc)
      ensures ok <==> world.calls[c].pc == Ended(true)
      ensures ok ==> forall i :: 0 <= i < |work| ==> Effect(c, Inner(root, entry), work[i], world.calls[c].began) in world.effects
      ensures !ok ==> WroteNothing(world, c)
      ensures ok ==> Possible(root, entry, reason, f, work)
      ensures Undisturbed(others) ==> (ok <==> Possible(root, entry, reason, f, work) && KeyFree(old(world), entry, key))
      ensures HasRow(world.audit, c, |world.audit|) <==> Privileged(root) && Opens(root, entry, reason) && !f.record
      ensures forall k :: 0 <= k < |world.audit| && world.audit[k].call == c ==> IsEvidence(world.audit[k], c, root, entry, reason, routeTenant)
    {
      EntryExactlyWhen(root, entry, reason, routeTenant);
      c := Enters(root, entry, reason, routeTenant, key);
      Runs(c, root, f, work, others);
      ok := world.calls[c].pc == Ended(true);
      RunKeeps(history);
      assert CallOk(world.audit, c, world.calls[c]);
      if !ok {
        UncommittedWroteNothing(world, c);
      }
      forall k | 0 <= k < |world.audit| && world.audit[k].call == c
        ensures IsEvidence(world.audit[k], c, root, entry, reason, routeTenant)
      {
        assert RowOk(world, k);
      }
    }

    method Runs(c: nat, root: Scope, f: Faults, work: seq<Id>, others: seq<seq<Step>>)
      requires Valid() && c < |world.calls| && world.calls[c].pc.Called? && world.calls[c].scope == root
      requires |others| == 4 && forall k :: 0 <= k < 4 ==> Strangers(others[k], c)
      modifies this
      ensures Valid() && c < |world.calls| && SameCall(old(world).calls[c], world.calls[c])
      ensures
        var call := world.calls[c];
        var refused := Refusal(root, call.entry, call.reason).Some?;
        if refused then call.pc.Refused? else if Recorded(call.entry) && f.record then call.pc.Unrecorded? else call.pc.Ended?
      ensures world.calls[c].pc == Ended(true) ==> Commits(world.calls[c].entry, f, work)
      ensures
        var call := world.calls[c];
        Undisturbed(others) && call.pc.Ended? ==>
          (call.pc.committed <==> Commits(call.entry, f, work) && (MakesClaim(call.entry) && call.key.Some? ==> call.key.value !in old(world).keys))
      ensures
        var call := world.calls[c];
        call.pc == Ended(true) ==>
          forall i :: 0 <= i < |work| ==> Effect(c, Inner(root, call.entry), work[i], call.began) in world.effects
    {
      Interleave(others[0], c);
      Records(c, f.record);
      if world.calls[c].pc.Ready? {
        Transacts(c, f, work, others[1], others[2], others[3]);
      }
    }

    /** The transaction of an admitted call, its evidence committed. */
    method Transacts(c: nat, f: Faults, work: seq<Id>, first: seq<Step>, second: seq<Step>, third: seq<Step>)
      requires Valid() && c < |world.calls| && world.calls[c].pc.Ready?
      requires Strangers(first, c) && Strangers(second, c) && Strangers(third, c)
      modifies this
      ensures Valid() && c < |world.calls| && SameCall(old(world).calls[c], world.calls[c]) && world.calls[c].pc.Ended?
      ensures world.calls[c].pc == Ended(true) ==> Commits(world.calls[c].entry, f, work)
      ensures
        var call := world.calls[c];
        first == second == third == [] ==>
          (call.pc.committed <==> Commits(call.entry, f, work) && (MakesClaim(call.entry) && call.key.Some? ==> call.key.value !in old(world).keys))
      ensures
        var call := world.calls[c];
        call.pc == Ended(true) ==>
          forall i :: 0 <= i < |work| ==> Effect(c, Inner(call.scope, call.entry), work[i], call.began) in world.effects
    {
      Interleave(first, c);
      Begins(c, f.bind);
      if world.calls[c].pc.Ended? {
        return;
      }
      Interleave(second, c);
      Claims(c, f.claim);
      if world.calls[c].pc.Ended? {
        return;
      }
      Writes(c, work);
      if world.calls[c].pc.Ended? {
        return;
      }
      Interleave(third, c);
      Finishes(c, work, !f.body && !f.commit);
    }

    method Finishes(c: nat, work: seq<Id>, commits: bool)
      requires Valid() && c < |world.calls| && world.calls[c].pc.Running? && world.calls[c].pc.staged == work
      modifies this
      ensures Valid() && c < |world.calls| && SameCall(old(world).calls[c], world.calls[c]) && world.calls[c].pc.Ended?
      ensures
        var claimed := old(world).calls[c].pc.claimed;
        world.calls[c].pc.committed <==> commits && (claimed.Some? ==> claimed.value !in old(world).keys)
      ensures
        var call := world.calls[c];
        call.pc == Ended(true) ==>
          forall i :: 0 <= i < |work| ==> Effect(c, Inner(call.scope, call.entry), work[i], call.began) in world.effects
    {
      ghost var call := world.calls[c];
      ghost var before := world.effects;
      Ends(c, commits);
      if world.calls[c].pc == Ended(true) {
        forall i | 0 <= i < |work| ensures Effect(c, Inner(call.scope, call.entry), work[i], call.began) in world.effects {
          assert world.effects[|before| + i] == EffectsOf(c, call, work)[i];
        }
      }
    }
  }
}
