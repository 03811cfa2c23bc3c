/**
 Which requests carry a claim, what a first use and a retry do, and what is shown and kept, said of
 the header, the table and the fields alone (internal/db/idempotency.go, internal/httpapi/idempotency.go).
 */
module IdempotencyRules {
  import opened Base
  import opened Idempotency
  import opened IdempotencyResults

  // ----- the claim a request carries

  /** Every keyed request carries its claim: scope and key each hold something but white space. */
  lemma CarriedExactlyWhen(scope: string, key: string, digest: Digest)
    ensures WithClaim(scope, key, digest) == if Says(scope) && Says(key) then Some(Claim(scope, key, digest)) else None
  {
    SaysExactlyWhen(scope);
    SaysExactlyWhen(key);
  }

  function Arrivals(steps: seq<Step>): nat {
    if steps == [] then 0 else Arrivals(steps[..|steps| - 1]) + if steps[|steps| - 1].Arrive? then 1 else 0
  }

  /** The r-th request to arrive came with this scope, key and content. */
  ghost predicate Arrived(steps: seq<Step>, r: nat, scope: string, key: string, digest: Digest) {
    exists k :: 0 <= k < |steps| && steps[k] == Arrive(scope, key, digest) && Arrivals(steps[..k]) == r
  }

  lemma {:induction false} ArrivedOne(steps: seq<Step>, k: nat)
    requires k < |steps| && steps[k].Arrive?
    ensures
      var w := Exec(START, steps);
      var r := Arrivals(steps[..k]);
      && |w.requests| == Arrivals(steps) && r < |w.requests| && w.requests[r].digest == steps[k].digest
      && w.requests[r].claim == (if Says(steps[k].scope) && Says(steps[k].key) then Some(Claim(steps[k].scope, steps[k].key, steps[k].digest)) else None)
  {
    var n := |steps| - 1;
    RequestsCounted(steps[..n]);
    if k == n {
      CarriedExactlyWhen(steps[k].scope, steps[k].key, steps[k].digest);
    } else {
      assert steps[..n][..k] == steps[..k] && steps[..n][k] == steps[k];
      ArrivedOne(steps[..n], k);
      StepKeepsContent(Exec(START, steps[..n]), steps[n]);
    }
  }

  lemma {:induction false} RequestsCounted(steps: seq<Step>)
    ensures |Exec(START, steps).requests| == Arrivals(steps)
  {
    if steps != [] {
      RequestsCounted(steps[..|steps| - 1]);
    }
  }

  lemma StepKeepsContent(w: World, s: Step)
    ensures
      var w' := Take(w, s);
      && |w'.requests| == |w.requests| + (if s.Arrive? then 1 else 0)
      && forall r :: 0 <= r < |w.requests| ==> w'.requests[r].claim == w.requests[r].claim && w'.requests[r].digest == w.requests[r].digest
  {
  }

  /** What arrived with a scope and a key carries them as its claim. */
  lemma ArrivedCarries(steps: seq<Step>, r: nat, scope: string, key: string, digest: Digest)
    requires Arrived(steps, r, scope, key, digest) && Says(scope) && Says(key)
    ensures r < |Exec(START, steps).requests| && Exec(START, steps).requests[r].digest == digest
    ensures Exec(START, steps).requests[r].claim == Some(Claim(scope, key, digest))
  {
    var k :| 0 <= k < |steps| && steps[k] == Arrive(scope, key, digest) && Arrivals(steps[..k]) == r;
    ArrivedOne(steps, k);
  }

  /**
   Of all requests that arrived with one scope and key, for a command of one transaction, at most one
   effect is ever committed; for any command that does not adopt, by at most one of them.
   */
  lemma OnceForAllArrivals(steps: seq<Step>, scope: string, key: string, i: nat, d: Digest, j: nat, d': Digest)
    requires Says(scope) && Says(key) && i < |Exec(START, steps).store.effects| && j < |Exec(START, steps).store.effects|
    requires Arrived(steps, Exec(START, steps).store.effects[i].request, scope, key, d)
    requires Arrived(steps, Exec(START, steps).store.effects[j].request, scope, key, d')
    ensures d == d'
    ensures d.route.shape.Single? ==> i == j
    ensures !Adopts(d) ==> Exec(START, steps).store.effects[i].request == Exec(START, steps).store.effects[j].request
  {
    var w := Exec(START, steps);
    ArrivedCarries(steps, w.store.effects[i].request, scope, key, d);
    ArrivedCarries(steps, w.store.effects[j].request, scope, key, d');
    RunKeeps(steps);
    TheEffect(w, i);
    TheEffect(w, j);
    EffectsOnce(steps, i, j, (scope, key));
  }

  // ----- what is shown and what is kept

  /** The body has exactly the view's members, each with its field of the result. */
  ghost predicate Shows(view: View, result: Body, body: Body) {
    && (forall m :: m in body <==> m in view.members)
    && (forall m :: m in view.members ==> view.members[m] in result)
    && (forall m :: m in view.members && m in body && view.members[m] in result ==> body[m] == result[view.members[m]])
  }

  /** What is kept of a body is all of it but the members withheld, every one of which it had. */
  ghost predicate KeptOf(body: Body, withheld: set<string>, kept: Body) {
    && (forall m :: m in withheld ==> m in body)
    && (forall m :: m in kept <==> m in body && m !in withheld)
    && (forall m :: m in kept && m in body ==> kept[m] == body[m])
  }

  lemma RendersExactlyWhen(view: View, result: Body)
    ensures Render(view, result).Some? <==> forall m :: m in view.members ==> view.members[m] in result
    ensures Render(view, result).Some? ==> Shows(view, result, Render(view, result).value)
  {
    if forall m :: m in view.members ==> view.members[m] in result {
      forall f | f in view.members.Values ensures f in result.Keys {
        var m :| m in view.members && view.members[m] == f;
      }
    } else {
      var m :| m in view.members && view.members[m] !in result;
      assert view.members[m] in view.members.Values;
    }
  }

  lemma WithholdsExactlyWhen(body: Body, withheld: set<string>)
    ensures Withhold(body, withheld).Some? <==> forall m :: m in withheld ==> m in body
    ensures Withhold(body, withheld).Some? ==> KeptOf(body, withheld, Withhold(body, withheld).value)
  {
  }

  // ----- a first use

  /** The key is nobody's yet, or the request carries none. */
  ghost predicate FirstUse(w: World, r: nat)
    requires r < |w.requests|
  {
    && w.requests[r].pc == Running(0) && w.requests[r].flags == UNUSED
    && (w.requests[r].claim.Some? ==> w.requests[r].claim.value.digest == w.requests[r].digest && NameOf(w.requests[r].claim.value) !in w.store.keys)
  }

  /** A success the surface would send: rendered, in the two hundreds, with every member there that is to be withheld. */
  ghost predicate Sendable(route: Route, result: Body) {
    && 200 <= route.view.status <= 299
    && (forall m :: m in route.view.members ==> route.view.members[m] in result)
    && (forall m :: m in route.withheld ==> m in route.view.members)
  }

  /** What a first use that commits leaves: one effect, the answer, and for a command of one transaction its record. */
  ghost predicate Ran(w: World, w': World, r: nat, result: Body)
    requires r < |w.requests|
  {
    var q := w.requests[r];
    && w'.store.effects == w.store.effects + [Effect(r, q.claim, q.digest, result)]
    && |w'.requests| == |w.requests| && w'.requests[r].pc.Answering? && w'.requests[r].pc.answer.Live?
    && w'.requests[r].pc.answer.response.status == q.digest.route.view.status
    && Shows(q.digest.route.view, result, w'.requests[r].pc.answer.response.body)
    && (q.claim.None? ==> w'.store.keys == w.store.keys)
    && (q.claim.Some? ==>
          var n := (q.claim.value.scope, q.claim.value.key);
          && n in w'.store.keys && w'.store.keys == w.store.keys[n := w'.store.keys[n]] && w'.store.keys[n].digest == q.digest
          && w'.requests[r].flags.made
          && (q.digest.route.shape.Several? ==> w'.store.keys[n].response == None && !w'.requests[r].flags.completed)
          && (q.digest.route.shape.Single? ==>
                && w'.store.keys[n].response.Some? && w'.store.keys[n].response.value.status == q.digest.route.view.status
                && KeptOf(w'.requests[r].pc.answer.response.body, q.digest.route.withheld, w'.store.keys[n].response.value.body)))
  }

  lemma FirstUseRuns(w: World, r: nat, result: Body)
    requires r < |w.requests| && FirstUse(w, r) && Sendable(w.requests[r].digest.route, result)
    ensures Ran(w, TransactStep(w, r, Returns(result), Commits, false), r, result)
  {
    var route := w.requests[r].digest.route;
    RendersExactlyWhen(route.view, result);
    var body := Render(route.view, result).value;
    WithholdsExactlyWhen(body, route.withheld);
    assert Success(route.view.status);
    if w.requests[r].claim.Some? {
      var n := NameOf(w.requests[r].claim.value);
      var keys := w.store.keys[n := Entry(w.requests[r].digest, None)];
      assert keys[n] == Entry(w.requests[r].digest, None);
    }
  }

  /** A body that fails, or a commit that does, leaves no effect and no key, and an answer that says so. */
  lemma FailureLeavesNothing(w: World, r: nat, outcome: Outcome, fate: Fate, more: bool)
    requires r < |w.requests| && FirstUse(w, r) && (outcome.Fails? || fate == RollsBack)
    ensures
      var w' := TransactStep(w, r, outcome, fate, more);
      w'.store == w.store && w'.requests[r].pc.Answering? && w'.requests[r].pc.answer.Problem?
  {
  }

  /** Once it has committed, a command of several transactions may go on to another; a command of one answers. */
  lemma GoesOnExactlyWhen(w: World, r: nat, result: Body, more: bool)
    requires r < |w.requests| && FirstUse(w, r)
    ensures
      var pc := TransactStep(w, r, Returns(result), Commits, more).requests[r].pc;
      if w.requests[r].digest.route.shape.Several? && more then pc == Running(1) else pc.Answering?
  {
  }
}
