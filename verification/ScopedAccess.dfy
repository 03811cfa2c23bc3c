/**
 Scoped transactions as they run (internal/db/binding.go). Evidence of a privileged access is written
 and committed on the recorder's own connection; then the transaction opens, binds its scope, claims the
 request's key, runs its body and commits or rolls back. Any number of calls run at once, a body may
 open further transactions, and a call may die between any two steps.
 */
module ScopedAccess {
  import opened Base
  import opened Admission

  /** One committed evidence row. `call` is a history annotation. */
  datatype Row = Row(call: nat, access: Access)

  /** One committed write. `began` is how many evidence rows there were when its transaction began. */
  datatype Effect = Effect(call: nat, scope: Scope, work: Id, began: nat)

  datatype Pc =
    | Called                                                // nothing done yet
    | Refused                                               // the scope does not open this entry point
    | Unrecorded                                            // the evidence could not be written
    | Ready                                                 // evidence, where it is due, is committed
    | Bound                                                 // the transaction is open and its scope bound
    | Running(claimed: Option<Id>, staged: seq<Id>)         // what the transaction has written so far
    | Ended(committed: bool)
    | Dead

  /** `root` is the scope the request was resolved to; `scope` is the one this call is made in. */
  datatype Call = Call(root: Scope, scope: Scope, entry: Entry, reason: string, routeTenant: Id, key: Option<Id>, began: nat, pc: Pc)

  datatype World = World(audit: seq<Row>, keys: map<Id, nat>, effects: seq<Effect>, calls: seq<Call>)

  const START := World([], map[], [], [])

  datatype Step =
    | Enter(root: Scope, entry: Entry, reason: string, routeTenant: Id, key: Option<Id>)
    | Nest(c: nat, entry: Entry, reason: string, routeTenant: Id, key: Option<Id>)
    | Record(c: nat, fails: bool)
    | Begin(c: nat, fails: bool)
    | Claim(c: nat, fails: bool)
    | Write(c: nat, work: Id)
    | End(c: nat, commits: bool)
    | Crash(c: nat)

  function Put(w: World, c: nat, call: Call): World
    requires c < |w.calls|
  {
    w.(calls := w.calls[c := call])
  }

  function RecordStep(w: World, c: nat, fails: bool): World
    requires c < |w.calls|
  {
    var call := w.calls[c];
    if Refusal(call.scope, call.entry, call.reason).Some? then Put(w, c, call.(pc := Refused))
    else if !Recorded(call.entry) then Put(w, c, call.(pc := Ready))
    else if fails then Put(w, c, call.(pc := Unrecorded))
    else Put(w, c, call.(pc := Ready)).(audit := w.audit + [Row(c, EvidenceOf(call.scope, call.entry, call.reason, call.routeTenant))])
  }

  /** A key another transaction committed first is refused. */
  function ClaimStep(w: World, c: nat, fails: bool): World
    requires c < |w.calls|
  {
    var call := w.calls[c];
    if !MakesClaim(call.entry) || call.key.None? then Put(w, c, call.(pc := if fails then Ended(false) else Running(None, [])))
    else Put(w, c, call.(pc := if fails || call.key.value in w.keys then Ended(false) else Running(call.key, [])))
  }

  function EffectsOf(c: nat, call: Call, staged: seq<Id>): seq<Effect> {
    seq(|staged|, i requires 0 <= i < |staged| => Effect(c, Inner(call.scope, call.entry), staged[i], call.began))
  }

  /** The key and everything the body wrote commit together, or none of it does. */
  function EndStep(w: World, c: nat, commits: bool): World
    requires c < |w.calls| && w.calls[c].pc.Running?
  {
    var call := w.calls[c];
    if !commits || (call.pc.claimed.Some? && call.pc.claimed.value in w.keys) then Put(w, c, call.(pc := Ended(false)))
    else
      Put(w, c, call.(pc := Ended(true))).(
        keys := if call.pc.claimed.Some? then w.keys[call.pc.claimed.value := c] else w.keys,
        effects := w.effects + EffectsOf(c, call, call.pc.staged))
  }

  /** The call is over. */
  predicate Over(pc: Pc) {
    pc.Refused? || pc.Unrecorded? || pc.Ended? || pc.Dead?
  }

  function Take(w: World, s: Step): World {
    match s
    case Enter(root, entry, reason, routeTenant, key) =>
      // what admission resolves: one kind, and nobody's act on a Tenant yet
      if OneKind(root) && !root.acting
      then w.(calls := w.calls + [Call(root, root, entry, reason, routeTenant, key, |w.audit|, Called)]) else w
    case Nest(c, entry, reason, routeTenant, key) =>
      if c < |w.calls| && w.calls[c].pc.Running?
      then w.(calls := w.calls + [Call(w.calls[c].root, Inner(w.calls[c].scope, w.calls[c].entry), entry, reason, routeTenant, key, |w.audit|, Called)])
      else w
    case Record(c, fails) => if c < |w.calls| && w.calls[c].pc.Called? then RecordStep(w, c, fails) else w
    case Begin(c, fails) =>
      if c < |w.calls| && w.calls[c].pc.Ready?
      then Put(w, c, w.calls[c].(began := |w.audit|, pc := if fails then Ended(false) else Bound)) else w
    case Claim(c, fails) => if c < |w.calls| && w.calls[c].pc.Bound? then ClaimStep(w, c, fails) else w
    case Write(c, work) =>
      if c < |w.calls| && w.calls[c].pc.Running?
      then Put(w, c, w.calls[c].(pc := if ReadOnly(w.calls[c].entry) then Ended(false)
                                       else Running(w.calls[c].pc.claimed, w.calls[c].pc.staged + [work]))) else w
    case End(c, commits) => if c < |w.calls| && w.calls[c].pc.Running? then EndStep(w, c, commits) else w
    case Crash(c) => if c < |w.calls| && !Over(w.calls[c].pc) then Put(w, c, w.calls[c].(pc := Dead)) else w
  }

  function Exec(w: World, steps: seq<Step>): World {
    if steps == [] then w else Take(Exec(w, steps[..|steps| - 1]), steps[|steps| - 1])
  }
}
