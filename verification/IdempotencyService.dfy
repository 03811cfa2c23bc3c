/**
 The claim and the middleware as they run: flags set step by step on the record a request carries,
 the key table updated inside its transaction, and the response recorded afterwards where it was not.
 */
module IdempotencyService {
  import opened Base
  import opened Idempotency
  import opened IdempotencyResults
  import opened IdempotencyRules

  /** The key table as one transaction sees and changes it. */
  class KeyTable {
    var keys: Keys

    constructor (keys: Keys)
      ensures this.keys == keys
    {
      this.keys := keys;
    }
  }

  class Pending {
    const claim: Claim
    var consumed: bool
    var made: bool
    var adopted: bool
    var completed: bool

    function State(): Flags
      reads this
    {
      Flags(consumed, made, adopted, completed)
    }

    constructor (claim: Claim)
      ensures this.claim == claim && State() == UNUSED
    {
      this.claim := claim;
      consumed, made, adopted, completed := false, false, false, false;
    }

    /** Makes the claim inside a transaction, once per request. */
    method Claims(table: KeyTable, adopts: bool) returns (claiming: bool, stopped: Option<Answer>)
      modifies this, table
      ensures ClaimWithin(old(table.keys), Some(claim), old(State()), adopts)
              == (table.keys, State(), if stopped.Some? then Stop(stopped.value) else Proceed(claiming))
      ensures stopped.Some? ==> table.keys == old(table.keys) && !claiming
    {
      if consumed {
        return false, None;
      }
      consumed := true;
      if NameOf(claim) !in table.keys {
        table.keys := table.keys[NameOf(claim) := Entry(claim.digest, None)];
        made := true;
        return true, None;
      }
      var entry := table.keys[NameOf(claim)];
      if entry.digest != claim.digest {
        consumed := false;
        return false, Some(Problem(KeyConflict));
      }
      if entry.response.Some? {
        return false, Some(Replayed(entry.response.value));
      }
      if adopts {
        adopted := true;
        made := true;
        return true, None;
      }
      consumed := false;
      return false, Some(Problem(KeyInProgress));
    }

    /** Records the response with the effect, in the transaction that made the claim. */
    method Responds(table: KeyTable, claiming: bool, route: Route, result: Body) returns (ok: bool)
      modifies this, table
      ensures ok <==> Respond(old(table.keys), Some(claim), old(State()), claiming, route, result).Some?
      ensures ok ==> Respond(old(table.keys), Some(claim), old(State()), claiming, route, result) == Some((table.keys, State()))
      ensures !ok ==> table.keys == old(table.keys) && State() == old(State())
    {
      if !claiming || completed {
        return true;
      }
      var rendered := Render(route.view, result);
      if rendered.None? || route.view.status < 200 || route.view.status > 299 {
        return true;
      }
      var kept := Withhold(rendered.value, route.withheld);
      if kept.None? {
        return false;
      }
      var keys := Complete(table.keys, claim, Response(route.view.status, kept.value));
      if keys.None? {
        return false;
      }
      table.keys := keys.value;
      completed := true;
      return true;
    }
  }

  /** What a request cannot control: what its body does, its commits, and the steps of others in between. */
  datatype Surroundings = Surroundings(transactions: nat, others: nat -> seq<Step>, outcomes: nat -> Outcome, fates: nat -> Fate)

  predicate Strangers(steps: seq<Step>, r: nat) {
    forall i :: 0 <= i < |steps| ==> steps[i].Arrive? || steps[i].r != r
  }

  lemma OthersKeepRequest(w: World, s: Step, r: nat)
    requires (s.Arrive? || s.r != r) && r < |w.requests|
    ensures r < |Take(w, s).requests| && Take(w, s).requests[r] == w.requests[r]
    ensures w.sent <= Take(w, s).sent
  {
  }

  /** A success sent live by a command of one transaction is in the record, less what is withheld. */
  lemma LiveIsRecorded(w: World, i: nat)
    requires Inv(w) && i < |w.sent| && w.sent[i].request < |w.requests|
    requires w.sent[i].answer.Live? && Success(w.sent[i].answer.response.status)
    requires w.requests[w.sent[i].request].digest.route.shape.Single? && w.requests[w.sent[i].request].claim.Some?
    ensures
      var q := w.requests[w.sent[i].request];
      var response := w.sent[i].answer.response;
      && NameOf(q.claim.value) in w.store.keys
      && w.store.keys[NameOf(q.claim.value)] == Entry(q.digest, Some(Response(response.status, response.body - q.digest.route.withheld)))
  {
    var r := w.sent[i].request;
    var q := w.requests[r];
    TheAnswer(w, i);
    var k :| 0 <= k < |w.store.effects| && w.store.effects[k].request == r && LiveAnswer(q.digest.route, w.store.effects[k].result) == w.sent[i].answer;
    TheEffect(w, k);
  }

  /** What a request whose key is held is answered: by its content, and whether the first use completed. */
  ghost function RetryAnswer(entry: Entry, digest: Digest): Answer {
    if entry.digest != digest then Problem(KeyConflict)
    else if entry.response.Some? then Replayed(entry.response.value)
    else Problem(KeyInProgress)
  }

  /** The one transaction of a command of one, on the world its request arrived in. */
  lemma Undisturbed(steps: seq<Step>, w: World, r: nat, outcome: Outcome, fate: Fate, more: bool)
    requires w == Exec(START, steps) && r < |w.requests| && w.requests[r].pc == Running(0) && w.requests[r].digest.route.shape.Single?
    ensures
      var w' := TransactStep(w, r, outcome, fate, more);
      var q := w.requests[r];
      && w'.requests[r].pc.Answering?
      && (q.claim.Some? && (q.claim.value.scope, q.claim.value.key) in w.store.keys ==>
            && w'.store == w.store
            && w'.requests[r].pc.answer == RetryAnswer(w.store.keys[(q.claim.value.scope, q.claim.value.key)], q.digest))
      && ((q.claim.Some? ==> (q.claim.value.scope, q.claim.value.key) !in w.store.keys)
          && fate == Commits && outcome.Returns? && Sendable(q.digest.route, outcome.result) ==>
            Ran(w, w', r, outcome.result))
  {
    RunKeeps(steps);
    TheRequest(w, r);
    var q := w.requests[r];
    if q.claim.Some? && NameOf(q.claim.value) in w.store.keys {
      RetryRunsNothing(steps, r, outcome, fate, more);
    } else if fate == Commits && outcome.Returns? && Sendable(q.digest.route, outcome.result) {
      FirstUseRuns(w, r, outcome.result);
      assert TransactStep(w, r, outcome, fate, more) == TransactStep(w, r, outcome, Commits, false);
    }
  }

  class Surface {
    var world: World

    /** Every step taken so far, by anybody. */
    ghost var history: seq<Step>

    ghost predicate Valid()
      reads this
    {
      world == Exec(START, history)
    }

    constructor ()
      ensures Valid() && history == []
    {
      world, history := START, [];
    }

    ghost method Happened(s: Step)
      requires world == Take(Exec(START, history), s)
      modifies this`history
      ensures Valid() && history == old(history) + [s]
    {
      assert (history + [s])[..|history|] == history;
      history := history + [s];
    }

    method Other(s: Step, r: nat)
      requires Valid() && (s.Arrive? || s.r != r) && r < |world.requests|
      modifies this
      ensures Valid() && history == old(history) + [s]
      ensures r < |world.requests| && world.requests[r] == old(world).requests[r] && old(world).sent <= world.sent
    {
      OthersKeepRequest(world, s, r);
      world := Take(world, s);
      Happened(s);
    }

    /** Other requests run. */
    method Interleave(others: seq<Step>, r: nat)
      requires Valid() && Strangers(others, r) && r < |world.requests|
      modifies this
      ensures Valid() && history == old(history) + others
      ensures r < |world.requests| && world.requests[r] == old(world).requests[r] && old(world).sent <= world.sent
      ensures others == [] ==> world == old(world)
    {
      for i := 0 to |others|
        invariant Valid() && history == old(history) + others[..i]
        invariant r < |world.requests| && world.requests[r] == old(world).requests[r] && old(world).sent <= world.sent
        invariant others == [] ==> world == old(world)
      {
        Other(others[i], r);
        assert others[..i + 1] == others[..i] + [others[i]];
      }
      assert others[..|others|] == others;
    }

    /** The body of one scoped transaction: claim, effect, record. */
    method RunsBody(r: nat, pending: Pending?, outcome: Outcome) returns (store: Store, stopped: Option<Answer>)
      requires r < |world.requests|
      requires world.requests[r].claim == if pending == null then None else Some(pending.claim)
      requires pending != null ==> pending.State() == world.requests[r].flags
      modifies pending
      ensures
        var a := RunBody(world, r, outcome);
        && a.stopped == stopped && (stopped.None? ==> a.store == store)
        && a.flags == if pending == null then world.requests[r].flags else pending.State()
    {
      var q := world.requests[r];
      var route := q.digest.route;
      store, stopped := world.store, None;
      var table := new KeyTable(world.store.keys);
      var claiming := false;
      if pending != null {
        claiming, stopped := pending.Claims(table, route.shape.Several? && route.shape.adopts);
      }
      if stopped.Some? {
        return;
      }
      if outcome.Fails? {
        return store, Some(Problem(Refused));
      }
      if route.shape.Single? && pending != null {
        var ok := pending.Responds(table, claiming, route, outcome.result);
        if !ok {
          return store, Some(Problem(NotRecorded));
        }
      }
      store := Store(table.keys, world.store.effects + [Effect(r, q.claim, q.digest, outcome.result)]);
    }

    /** One scoped transaction of a request, and where it leaves the request. */
    method Transacts(r: nat, pending: Pending?, outcome: Outcome, fate: Fate, more: bool)
      requires Valid() && r < |world.requests| && world.requests[r].pc.Running?
      requires world.requests[r].claim == if pending == null then None else Some(pending.claim)
      requires pending != null ==> pending.State() == world.requests[r].flags
      modifies this, pending
      ensures Valid() && history == old(history) + [Transact(r, outcome, fate, more)]
      ensures world == TransactStep(old(world), r, outcome, fate, more)
      ensures pending != null ==> pending.State() == world.requests[r].flags
    {
      var q := world.requests[r];
      var store, stopped := RunsBody(r, pending, outcome);
      var flags := if pending == null then q.flags else pending.State();
      var ok := stopped.None? && fate == Commits;
      var done := q.pc.done + if ok then 1 else 0;
      var answer := if stopped.Some? then stopped.value else if !ok then Problem(Lost) else LiveAnswer(q.digest.route, outcome.result);
      var pc := if q.digest.route.shape.Several? && more && done > 0 then Running(done) else Answering(answer);
      world := Put(world, r, flags, pc).(store := if stopped.None? && fate != RollsBack then store else world.store);
      Happened(Transact(r, outcome, fate, more));
    }

    /** The service behind the middleware: transactions until it returns. */
    method Runs(r: nat, pending: Pending?, env: Surroundings)
      requires Valid() && (forall k :: Strangers(env.others(k), r))
      requires r < |world.requests| && world.requests[r].pc.Running?
      requires world.requests[r].claim == if pending == null then None else Some(pending.claim)
      requires pending != null ==> pending.State() == world.requests[r].flags
      modifies this, pending
      ensures Valid() && r < |world.requests| && world.requests[r].pc.Answering?
      ensures world.requests[r].claim == old(world).requests[r].claim && world.requests[r].digest == old(world).requests[r].digest
      ensures env.others(0) == [] && old(world).requests[r].digest.route.shape.Single? ==>
                world == TransactStep(old(world), r, env.outcomes(0), env.fates(0), 0 < env.transactions)
    {
      var k := 0;
      var running := true;
      while running
        invariant Valid() && r < |world.requests|
        invariant if running then world.requests[r].pc.Running? else world.requests[r].pc.Answering?
        invariant world.requests[r].claim == old(world).requests[r].claim && world.requests[r].digest == old(world).requests[r].digest
        invariant pending != null ==> pending.State() == world.requests[r].flags
        invariant k == 0 ==> running && world == old(world)
        invariant k > 0 && env.others(0) == [] && old(world).requests[r].digest.route.shape.Single? ==>
                    !running && world == TransactStep(old(world), r, env.outcomes(0), env.fates(0), 0 < env.transactions)
        decreases running, env.transactions - k
      {
        Interleave(env.others(k), r);
        Transacts(r, pending, env.outcomes(k), env.fates(k), k < env.transactions);
        running := world.requests[r].pc.Running?;
        k := k + 1;
      }
    }

    /** Writes the response to the caller, and keeps what is still owed to the key table. */
    method Replies(r: nat) returns (answer: Answer)
      requires Valid() && r < |world.requests| && world.requests[r].pc.Answering?
      modifies this
      ensures Valid() && history == old(history) + [Reply(r)]
      ensures world == ReplyStep(old(world), r) && answer == old(world).requests[r].pc.answer
      ensures world.store == old(world).store && world.sent == old(world).sent + [Sent(r, answer)]
      ensures
        var q := old(world).requests[r];
        && (world.requests[r].pc.Completing? <==>
              && q.flags.made && !q.flags.completed && answer.Live? && 200 <= answer.response.status <= 299
              && forall m :: m in q.digest.route.withheld ==> m in answer.response.body)
        && (world.requests[r].pc.Completing? ==>
              && world.requests[r].pc.response.status == answer.response.status
              && (forall m :: m in world.requests[r].pc.response.body <==> m in answer.response.body && m !in q.digest.route.withheld)
              && (forall m :: m in world.requests[r].pc.response.body ==> world.requests[r].pc.response.body[m] == answer.response.body[m]))
        && (!world.requests[r].pc.Completing? ==> world.requests[r].pc.Done?)
    {
      var q := world.requests[r];
      answer := q.pc.answer;
      var owed := None;
      if q.flags.made && !q.flags.completed && answer.Live? && 200 <= answer.response.status <= 299 {
        var kept := Withhold(answer.response.body, q.digest.route.withheld);
        if kept.Some? {
          owed := Some(Response(answer.response.status, kept.value));
        }
      }
      world := Put(world, r, q.flags, if owed.Some? then Completing(owed.value) else Done).(sent := world.sent + [Sent(r, answer)]);
      Happened(Reply(r));
    }

    /** Attaches the claim the request carries, if it carries one. */
    method Arrives(scope: string, key: string, digest: Digest) returns (r: nat, pending: Pending?)
      requires Valid()
      modifies this
      ensures Valid() && history == old(history) + [Arrive(scope, key, digest)]
      ensures r == |old(world).requests| && |world.requests| == r + 1
      ensures world.requests[r] == Request(WithClaim(scope, key, digest), digest, UNUSED, Running(0))
      ensures WithClaim(scope, key, digest) == if pending == null then None else Some(pending.claim)
      ensures world.requests[r].claim == if Says(scope) && Says(key) then Some(Claim(scope, key, digest)) else None
      ensures world.store == old(world).store && world.sent == old(world).sent
      ensures pending != null ==> fresh(pending) && pending.State() == UNUSED
    {
      CarriedExactlyWhen(scope, key, digest);
      r, pending := |world.requests|, null;
      var claim := WithClaim(scope, key, digest);
      if claim.Some? {
        pending := new Pending(claim.value);
      }
      world := world.(requests := world.requests + [Request(claim, digest, UNUSED, Running(0))]);
      Happened(Arrive(scope, key, digest));
    }

    /** The middleware around one request. Its late record may be refused or lost; a response recorded with the effect is not. */
    method Serve(scope: string, key: string, digest: Digest, env: Surroundings, recordFate: Fate) returns (r: nat, answer: Answer)
      requires Valid() && forall k :: Strangers(env.others(k), |world.requests|)
      modifies this
      ensures Valid() && r == |old(world).requests| && r < |world.requests| && world.requests[r].pc.Done?
      ensures world.requests[r].claim == (if Says(scope) && Says(key) then Some(Claim(scope, key, digest)) else None)
      ensures world.requests[r].digest == digest
      ensures Sent(r, answer) in world.sent
      ensures digest.route.shape.Single? && Says(scope) && Says(key) && answer.Live? && 200 <= answer.response.status <= 299 ==>
                && (scope, key) in world.store.keys
                && world.store.keys[(scope, key)] == Entry(digest, Some(Response(answer.response.status, answer.response.body - digest.route.withheld)))
      ensures digest.route.shape.Single? && env.others(0) == [] && Says(scope) && Says(key) && (scope, key) in old(world).store.keys ==>
                world.store == old(world).store && answer == RetryAnswer(old(world).store.keys[(scope, key)], digest)
      ensures digest.route.shape.Single? && env.others(0) == [] && (Says(scope) && Says(key) ==> (scope, key) !in old(world).store.keys)
              && env.fates(0) == Commits && env.outcomes(0).Returns? && Sendable(digest.route, env.outcomes(0).result) ==>
                && answer.Live? && answer.response.status == digest.route.view.status
                && Shows(digest.route.view, env.outcomes(0).result, answer.response.body)
                && |world.store.effects| == |old(world).store.effects| + 1
    {
      var pending: Pending?;
      r, pending := Arrives(scope, key, digest);
      ghost var arrived := world;
      ghost var steps := history;
      Runs(r, pending, env);
      answer := Replies(r);
      ghost var position := |world.sent| - 1;
      if world.requests[r].pc.Completing? {
        RunKeeps(history);
        TheRequest(world, r);
        Interleave(env.others(0), r);
        Records(r, recordFate);
      }
      RunKeeps(history);
      assert world.sent[position] == Sent(r, answer);
      if digest.route.shape.Single? && world.requests[r].claim.Some? && answer.Live? && Success(answer.response.status) {
        LiveIsRecorded(world, position);
      }
      if digest.route.shape.Single? && env.others(0) == [] {
        Undisturbed(steps, arrived, r, env.outcomes(0), env.fates(0), 0 < env.transactions);
      }
    }

    /** The late completion, in a transaction of its own; a refused or lost one changes nothing. */
    method Records(r: nat, fate: Fate)
      requires Valid() && r < |world.requests| && world.requests[r].pc.Completing?
      modifies this
      ensures Valid() && history == old(history) + [Record(r, fate)]
      ensures world == RecordStep(old(world), r, fate)
      ensures world.requests[r].pc.Done? && world.store.effects == old(world).store.effects && world.sent == old(world).sent
      ensures forall n :: n in world.store.keys <==> n in old(world).store.keys
      ensures
        var q := old(world).requests[r];
        forall n :: n in world.store.keys && world.store.keys[n] != old(world).store.keys[n] ==>
          && q.claim.Some? && n == NameOf(q.claim.value) && fate != RollsBack
          && old(world).store.keys[n] == Entry(q.claim.value.digest, None)
          && world.store.keys[n] == Entry(q.claim.value.digest, Some(q.pc.response))
      ensures
        var q := old(world).requests[r];
        q.claim.Some? && fate != RollsBack && NameOf(q.claim.value) in old(world).store.keys
        && old(world).store.keys[NameOf(q.claim.value)] == Entry(q.claim.value.digest, None)
        ==> world.store.keys[NameOf(q.claim.value)].response == Some(q.pc.response)
    {
      var q := world.requests[r];
      if q.claim.Some? {
        var keys := Complete(world.store.keys, q.claim.value, q.pc.response);
        if keys.Some? && fate != RollsBack {
          world := world.(store := world.store.(keys := keys.value));
        }
      }
      world := Put(world, r, q.flags, Done);
      Happened(Record(r, fate));
    }
  }
}
