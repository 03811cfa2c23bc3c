/** What every run of keyed requests keeps, and what that means for a caller that retries. */
module IdempotencyResults {
  import opened Base
  import opened Idempotency

  // ----- what an effect answers and records

  /** The response rendered from an effect, without the members withheld, when one may be recorded. */
  function RecordOf(e: Effect): Option<Response> {
    match Render(e.digest.route.view, e.result)
    case None => None
    case Some(body) =>
      if !Success(e.digest.route.view.status) then None
      else match Withhold(body, e.digest.route.withheld)
        case None => None
        case Some(kept) => Some(Response(e.digest.route.view.status, kept))
  }

  /** A success the view renders has every member to withhold: an effect without them is not committed. */
  predicate Recordable(e: Effect) {
    RecordOf(e).Some? <==> Render(e.digest.route.view, e.result).Some? && Success(e.digest.route.view.status)
  }

  predicate Adopts(d: Digest) {
    d.route.shape.Several? && d.route.shape.adopts
  }

  ghost predicate Under(e: Effect, n: Name) {
    e.claim.Some? && NameOf(e.claim.value) == n
  }

  // ----- the invariant

  ghost predicate EffectOk(w: World, e: Effect) {
    && e.request < |w.requests|
    && e.digest == w.requests[e.request].digest && e.claim == w.requests[e.request].claim
    && (e.claim.Some? ==>
          && NameOf(e.claim.value) in w.store.keys
          && w.store.keys[NameOf(e.claim.value)].digest == e.digest
          && (e.digest.route.shape.Single? ==> w.store.keys[NameOf(e.claim.value)].response == RecordOf(e) && Recordable(e)))
  }

  /** One request per key, and one transaction where the command has one. */
  ghost predicate Once(effects: seq<Effect>) {
    forall i, j, n :: 0 <= i < j < |effects| && Under(effects[i], n) && Under(effects[j], n) && !Adopts(effects[i].digest) ==>
      effects[i].request == effects[j].request && effects[i].digest.route.shape.Several?
  }

  /** A key is held by an effect that committed, and its record is rendered from one. */
  ghost predicate KeyOk(effects: seq<Effect>, n: Name, entry: Entry) {
    && (exists i :: 0 <= i < |effects| && Under(effects[i], n))
    && (entry.response.Some? ==> exists i :: 0 <= i < |effects| && Under(effects[i], n) && RecordOf(effects[i]) == entry.response)
  }

  ghost predicate AnswerOk(store: Store, q: Request, r: nat, answer: Answer) {
    match answer
    case Live(response) =>
      exists i :: 0 <= i < |store.effects| && store.effects[i].request == r && LiveAnswer(q.digest.route, store.effects[i].result) == answer
    case Replayed(response) =>
      q.claim.Some? && NameOf(q.claim.value) in store.keys && store.keys[NameOf(q.claim.value)] == Entry(q.digest, Some(response))
    case Problem(_) => true
  }

  ghost predicate Acted(effects: seq<Effect>, r: nat) {
    exists i :: 0 <= i < |effects| && effects[i].request == r
  }

  ghost predicate RequestOk(store: Store, q: Request, r: nat) {
    && (q.claim.Some? ==> q.claim.value.digest == q.digest)
    && (q.flags.made ==> q.claim.Some?)
    && match q.pc
       case Running(done) =>
         && (done == 0 ==> q.flags == UNUSED && !Acted(store.effects, r))
         && (done > 0 ==> q.digest.route.shape.Several? && Acted(store.effects, r) && (q.claim.Some? ==> q.flags.consumed))
       case Answering(answer) =>
         && AnswerOk(store, q, r, answer)
         && (q.claim.Some? && q.digest.route.shape.Single? && answer.Live? ==> q.flags.completed || !Success(answer.response.status))
       case Completing(response) =>
         && q.claim.Some? && q.digest.route.shape.Several?
         && exists i :: 0 <= i < |store.effects| && store.effects[i].request == r && RecordOf(store.effects[i]) == Some(response)
       case Done => true
       case Dead => true
  }

  ghost predicate Requests(w: World) {
    forall r :: 0 <= r < |w.requests| ==> RequestOk(w.store, w.requests[r], r)
  }

  ghost predicate Effects(w: World) {
    forall i :: 0 <= i < |w.store.effects| ==> EffectOk(w, w.store.effects[i])
  }

  ghost predicate Held(store: Store) {
    forall n :: n in store.keys ==> KeyOk(store.effects, n, store.keys[n])
  }

  ghost predicate Answers(w: World) {
    forall i :: 0 <= i < |w.sent| ==>
      w.sent[i].request < |w.requests| && AnswerOk(w.store, w.requests[w.sent[i].request], w.sent[i].request, w.sent[i].answer)
  }

  datatype Part = RequestsPart | EffectsPart | OncePart | HeldPart | AnswersPart

  ghost predicate Keeps(w: World, part: Part) {
    match part
    case RequestsPart => Requests(w)
    case EffectsPart => Effects(w)
    case OncePart => Once(w.store.effects)
    case HeldPart => Held(w.store)
    case AnswersPart => Answers(w)
  }

  /** The invariant, part by part: a proof that only passes it along unfolds none of them. */
  ghost predicate Inv(w: World) {
    forall part: Part :: Keeps(w, part)
  }

  lemma Unfold(w: World)
    requires Inv(w)
    ensures Requests(w) && Effects(w) && Once(w.store.effects) && Held(w.store) && Answers(w)
  {
    assert Keeps(w, RequestsPart) && Keeps(w, EffectsPart) && Keeps(w, OncePart) && Keeps(w, HeldPart) && Keeps(w, AnswersPart);
  }

  lemma Fold(w: World)
    requires Requests(w) && Effects(w) && Once(w.store.effects) && Held(w.store) && Answers(w)
    ensures Inv(w)
  {
    forall part: Part ensures Keeps(w, part) {
      match part
      case _ =>
    }
  }

  lemma TheRequest(w: World, r: nat)
    requires Inv(w) && r < |w.requests|
    ensures RequestOk(w.store, w.requests[r], r)
  {
    assert Keeps(w, RequestsPart);
  }

  lemma TheEffect(w: World, i: nat)
    requires Inv(w) && i < |w.store.effects|
    ensures EffectOk(w, w.store.effects[i])
  {
    assert Keeps(w, EffectsPart);
  }

  lemma TheKey(w: World, n: Name)
    requires Inv(w) && n in w.store.keys
    ensures KeyOk(w.store.effects, n, w.store.keys[n])
  {
    assert Keeps(w, HeldPart);
  }

  lemma TheAnswer(w: World, i: nat)
    requires Inv(w) && i < |w.sent|
    ensures w.sent[i].request < |w.requests|
    ensures AnswerOk(w.store, w.requests[w.sent[i].request], w.sent[i].request, w.sent[i].answer)
  {
    assert Keeps(w, AnswersPart);
  }

  // ----- a store only grows

  ghost predicate Grows(s: Store, s': Store) {
    && |s.effects| <= |s'.effects| && s'.effects[..|s.effects|] == s.effects
    && forall n :: n in s.keys ==>
         n in s'.keys && s'.keys[n].digest == s.keys[n].digest && (s.keys[n].response.Some? ==> s'.keys[n] == s.keys[n])
  }

  lemma AnswerStays(s: Store, s': Store, q: Request, r: nat, answer: Answer)
    requires Grows(s, s') && AnswerOk(s, q, r, answer)
    ensures AnswerOk(s', q, r, answer)
  {
    if answer.Live? {
      var i :| 0 <= i < |s.effects| && s.effects[i].request == r && LiveAnswer(q.digest.route, s.effects[i].result) == answer;
      assert s'.effects[..|s.effects|][i] == s'.effects[i];
    }
  }

  /** A request nobody stepped, over a store that grew by other requests' effects. */
  lemma RequestStays(s: Store, s': Store, q: Request, r: nat)
    requires Grows(s, s') && RequestOk(s, q, r)
    requires forall i :: |s.effects| <= i < |s'.effects| ==> s'.effects[i].request != r
    ensures RequestOk(s', q, r)
  {
    assert forall i :: 0 <= i < |s.effects| ==> s'.effects[..|s.effects|][i] == s'.effects[i] == s.effects[i];
    if q.pc.Answering? {
      AnswerStays(s, s', q, r, q.pc.answer);
    }
  }

  lemma AnswersStay(w: World, w': World)
    requires Inv(w) && Grows(w.store, w'.store) && w'.sent == w.sent && |w.requests| <= |w'.requests|
    requires forall r :: 0 <= r < |w.requests| ==> w'.requests[r].claim == w.requests[r].claim && w'.requests[r].digest == w.requests[r].digest
    ensures Answers(w')
  {
    forall i | 0 <= i < |w'.sent|
      ensures w'.sent[i].request < |w'.requests| && AnswerOk(w'.store, w'.requests[w'.sent[i].request], w'.sent[i].request, w'.sent[i].answer)
    {
      TheAnswer(w, i);
      var s := w.sent[i];
      AnswerStays(w.store, w'.store, w.requests[s.request], s.request, s.answer);
    }
  }

  // ----- what one transaction body does

  /** A body that runs adds its effect; a key it did not find is now its own, with what it records. */
  lemma BodyWrites(w: World, r: nat, result: Body, a: Attempt)
    requires r < |w.requests| && RequestOk(w.store, w.requests[r], r) && w.requests[r].pc.Running?
    requires a == RunBody(w, r, Returns(result)) && a.stopped.None?
    ensures
      var q := w.requests[r];
      var e := Effect(r, q.claim, q.digest, result);
      && a.store.effects == w.store.effects + [e]
      && (q.claim.None? || q.pc.done > 0 ==> a.store.keys == w.store.keys)
      && (q.claim.Some? && q.pc.done == 0 && NameOf(q.claim.value) in w.store.keys ==>
            a.store.keys == w.store.keys && Adopts(q.digest) && w.store.keys[NameOf(q.claim.value)].digest == q.digest)
      && (q.claim.Some? && q.pc.done == 0 && NameOf(q.claim.value) !in w.store.keys ==>
            a.store.keys == w.store.keys[NameOf(q.claim.value) := Entry(q.digest, if q.digest.route.shape.Single? then RecordOf(e) else None)])
      && (q.claim.Some? ==> a.flags.consumed)
      && (a.flags.made ==> q.claim.Some?)
      && (q.claim.Some? && q.digest.route.shape.Single? && RecordOf(e).Some? ==> a.flags.completed)
      && (q.claim.Some? && q.digest.route.shape.Single? ==> Recordable(e))
  {
  }

  // ----- every step keeps the invariant

  /** The store a commit leaves, before the request moves on. */
  lemma CommitKeeps(w: World, r: nat, result: Body, a: Attempt)
    requires Inv(w) && r < |w.requests| && w.requests[r].pc.Running?
    requires a == RunBody(w, r, Returns(result)) && a.stopped.None?
    ensures Grows(w.store, a.store)
    ensures Once(a.store.effects) && Held(a.store)
  {
    Unfold(w);
    BodyWrites(w, r, result, a);
    var q := w.requests[r];
    var e := Effect(r, q.claim, q.digest, result);
    assert a.store.effects[..|w.store.effects|] == w.store.effects;
    CommitOnce(w, r, e);
    forall n | n in a.store.keys ensures KeyOk(a.store.effects, n, a.store.keys[n]) {
      if n in w.store.keys {
        KeyStays(w.store.effects, a.store.effects, n, w.store.keys[n]);
      } else {
        assert Under(a.store.effects[|w.store.effects|], n);
      }
    }
  }

  lemma CommitEffects(w: World, r: nat, result: Body, a: Attempt)
    requires Inv(w) && r < |w.requests| && w.requests[r].pc.Running?
    requires a == RunBody(w, r, Returns(result)) && a.stopped.None?
    ensures forall i :: 0 <= i < |a.store.effects| ==> EffectOk(w.(store := a.store), a.store.effects[i])
  {
    TheRequest(w, r);
    BodyWrites(w, r, result, a);
    var q := w.requests[r];
    forall i | 0 <= i < |a.store.effects| ensures EffectOk(w.(store := a.store), a.store.effects[i]) {
      if i < |w.store.effects| {
        TheEffect(w, i);
      } else if q.claim.Some? && q.pc.done > 0 {
        var k :| 0 <= k < |w.store.effects| && w.store.effects[k].request == r;
        TheEffect(w, k);
      }
    }
  }

  lemma KeyStays(effects: seq<Effect>, effects': seq<Effect>, n: Name, entry: Entry)
    requires KeyOk(effects, n, entry) && |effects| <= |effects'| && effects'[..|effects|] == effects
    ensures KeyOk(effects', n, entry)
  {
    assert forall i :: 0 <= i < |effects| ==> effects'[..|effects|][i] == effects'[i] == effects[i];
  }

  /** A key already there belongs to the request itself, or is adopted. */
  lemma CommitOnce(w: World, r: nat, e: Effect)
    requires Inv(w) && r < |w.requests| && w.requests[r].pc.Running?
    requires e.request == r && e.claim == w.requests[r].claim && e.digest == w.requests[r].digest
    requires e.claim.Some? && w.requests[r].pc.done == 0 && NameOf(e.claim.value) in w.store.keys ==>
               Adopts(e.digest) && w.store.keys[NameOf(e.claim.value)].digest == e.digest
    ensures Once(w.store.effects + [e])
  {
    var effects := w.store.effects + [e];
    TheRequest(w, r);
    assert Once(w.store.effects) by { Unfold(w); }
    forall i, n | 0 <= i < |w.store.effects| && Under(effects[i], n) && Under(e, n) && !Adopts(effects[i].digest)
      ensures effects[i].request == r && effects[i].digest.route.shape.Several?
    {
      TheEffect(w, i);
      if w.requests[r].pc.done > 0 {
        var k :| 0 <= k < |w.store.effects| && w.store.effects[k].request == r;
        TheEffect(w, k);
        assert Under(w.store.effects[k], n);
      }
    }
  }

  lemma TransactEffects(w: World, r: nat, outcome: Outcome, fate: Fate, more: bool, w': World)
    requires Inv(w) && r < |w.requests| && w.requests[r].pc.Running?
    requires w' == TransactStep(w, r, outcome, fate, more)
    ensures Effects(w')
  {
    var a := RunBody(w, r, outcome);
    var committed := a.stopped.None? && fate != RollsBack;
    if committed {
      CommitEffects(w, r, outcome.result, a);
    }
    forall i | 0 <= i < |w'.store.effects| ensures EffectOk(w', w'.store.effects[i]) {
      if committed {
        assert EffectOk(w.(store := a.store), a.store.effects[i]);
      } else {
        TheEffect(w, i);
      }
    }
  }

  lemma TransactKeeps(w: World, r: nat, outcome: Outcome, fate: Fate, more: bool, w': World)
    requires Inv(w) && r < |w.requests| && w.requests[r].pc.Running?
    requires w' == TransactStep(w, r, outcome, fate, more)
    ensures Inv(w') && Grows(w.store, w'.store)
  {
    var a := RunBody(w, r, outcome);
    TheRequest(w, r);
    assert Once(w'.store.effects) && Held(w'.store) && Grows(w.store, w'.store) by {
      if a.stopped.None? && fate != RollsBack {
        CommitKeeps(w, r, outcome.result, a);
      } else {
        Unfold(w);
      }
    }
    TransactEffects(w, r, outcome, fate, more, w');
    TransactRequest(w, r, outcome, fate, more, w');
    forall k | 0 <= k < |w'.requests| ensures RequestOk(w'.store, w'.requests[k], k) {
      if k != r {
        TheRequest(w, k);
        RequestStays(w.store, w'.store, w.requests[k], k);
      }
    }
    AnswersStay(w, w');
    Fold(w');
  }

  lemma TransactRequest(w: World, r: nat, outcome: Outcome, fate: Fate, more: bool, w': World)
    requires r < |w.requests| && RequestOk(w.store, w.requests[r], r) && w.requests[r].pc.Running?
    requires w' == TransactStep(w, r, outcome, fate, more)
    ensures RequestOk(w'.store, w'.requests[r], r)
    ensures w'.store == w.store || (exists result :: outcome == Returns(result) && w'.store.effects == w.store.effects + [Effect(r, w.requests[r].claim, w.requests[r].digest, result)])
  {
    var a := RunBody(w, r, outcome);
    if a.stopped.None? {
      BodyWrites(w, r, outcome.result, a);
      if fate != RollsBack {
        var last := |w.store.effects|;
        assert w'.store.effects[last].request == r;
      }
      if w.requests[r].pc.done > 0 {
        assert forall i :: 0 <= i < |w.store.effects| && w.store.effects[i].request == r ==> w'.store.effects[i].request == r;
      }
    }
  }

  lemma ReplyKeeps(w: World, r: nat, w': World)
    requires Inv(w) && r < |w.requests| && w.requests[r].pc.Answering? && w' == ReplyStep(w, r)
    ensures Inv(w')
  {
    var q := w.requests[r];
    TheRequest(w, r);
    forall i | 0 <= i < |w'.store.effects| ensures EffectOk(w', w'.store.effects[i]) {
      TheEffect(w, i);
    }
    if Owed(q, q.pc.answer).Some? {
      var i :| 0 <= i < |w.store.effects| && w.store.effects[i].request == r && LiveAnswer(q.digest.route, w.store.effects[i].result) == q.pc.answer;
      TheEffect(w, i);
      assert RecordOf(w.store.effects[i]) == Owed(q, q.pc.answer);
    }
    forall k | 0 <= k < |w'.requests| ensures RequestOk(w'.store, w'.requests[k], k) {
      TheRequest(w, k);
    }
    forall i | 0 <= i < |w'.sent|
      ensures w'.sent[i].request < |w'.requests| && AnswerOk(w'.store, w'.requests[w'.sent[i].request], w'.sent[i].request, w'.sent[i].answer)
    {
      if i < |w.sent| {
        TheAnswer(w, i);
        AnswerStays(w.store, w'.store, w.requests[w.sent[i].request], w.sent[i].request, w.sent[i].answer);
      } else {
        AnswerStays(w.store, w'.store, q, r, q.pc.answer);
      }
    }
    assert Once(w'.store.effects) && Held(w'.store) by { Unfold(w); }
    Fold(w');
  }

  /** A late record completes the key its request claimed, from one of its own effects. */
  lemma RecordStore(w: World, r: nat, fate: Fate, w': World)
    requires r < |w.requests| && w.requests[r].pc.Completing? && w' == RecordStep(w, r, fate)
    requires Effects(w) && RequestOk(w.store, w.requests[r], r)
    ensures Effects(w') && Grows(w.store, w'.store)
    ensures forall n :: n in w'.store.keys ==> n in w.store.keys
    ensures forall n :: n in w'.store.keys && w'.store.keys[n] != w.store.keys[n] ==>
              w.requests[r].claim.Some? && n == NameOf(w.requests[r].claim.value) && w'.store.keys[n].response == Some(w.requests[r].pc.response)
  {
    forall i | 0 <= i < |w'.store.effects| ensures EffectOk(w', w'.store.effects[i]) {
      assert EffectOk(w, w.store.effects[i]);
    }
  }

  lemma RecordHeld(w: World, r: nat, fate: Fate, w': World)
    requires r < |w.requests| && w.requests[r].pc.Completing? && w' == RecordStep(w, r, fate)
    requires Effects(w) && Held(w.store) && RequestOk(w.store, w.requests[r], r)
    ensures Held(w'.store)
  {
    RecordStore(w, r, fate, w');
    var q := w.requests[r];
    var k :| 0 <= k < |w.store.effects| && w.store.effects[k].request == r && RecordOf(w.store.effects[k]) == Some(q.pc.response);
    assert EffectOk(w, w.store.effects[k]) && Under(w.store.effects[k], NameOf(q.claim.value));
    forall n | n in w'.store.keys ensures KeyOk(w'.store.effects, n, w'.store.keys[n]) {
      assert KeyOk(w.store.effects, n, w.store.keys[n]);
    }
  }

  lemma RecordKeeps(w: World, r: nat, fate: Fate, w': World)
    requires Inv(w) && r < |w.requests| && w.requests[r].pc.Completing? && w' == RecordStep(w, r, fate)
    ensures Inv(w') && Grows(w.store, w'.store)
  {
    TheRequest(w, r);
    assert Effects(w') && Once(w'.store.effects) && Held(w'.store) && Grows(w.store, w'.store) by {
      Unfold(w);
      RecordStore(w, r, fate, w');
      RecordHeld(w, r, fate, w');
    }
    assert w'.store.effects == w.store.effects;
    forall i | 0 <= i < |w'.requests| ensures RequestOk(w'.store, w'.requests[i], i) {
      TheRequest(w, i);
      if i != r {
        RequestStays(w.store, w'.store, w.requests[i], i);
      }
    }
    AnswersStay(w, w');
    Fold(w');
  }

  lemma StepKeeps(w: World, s: Step)
    requires Inv(w)
    ensures Inv(Take(w, s)) && Grows(w.store, Take(w, s).store)
  {
    var w' := Take(w, s);
    match s
    case Arrive(scope, key, digest) =>
      ArriveKeeps(w, w');
    case Transact(r, outcome, fate, more) =>
      if r < |w.requests| && w.requests[r].pc.Running? {
        TransactKeeps(w, r, outcome, fate, more, w');
      }
    case Reply(r) =>
      if r < |w.requests| && w.requests[r].pc.Answering? {
        ReplyKeeps(w, r, w');
      }
    case Record(r, fate) =>
      if r < |w.requests| && w.requests[r].pc.Completing? {
        RecordKeeps(w, r, fate, w');
      }
    case Crash(r) =>
      if r < |w.requests| {
        CrashKeeps(w, r, w');
      }
  }

  lemma ArriveKeeps(w: World, w': World)
    requires Inv(w) && |w'.requests| == |w.requests| + 1 && w'.requests[..|w.requests|] == w.requests
    requires w' == w.(requests := w'.requests)
    requires var q := w'.requests[|w.requests|]; q.flags == UNUSED && q.pc == Running(0) && (q.claim.Some? ==> q.claim.value.digest == q.digest)
    ensures Inv(w')
  {
    var n := |w.requests|;
    assert forall r :: 0 <= r < n ==> w'.requests[..n][r] == w'.requests[r] == w.requests[r];
    forall i | 0 <= i < |w'.store.effects| ensures EffectOk(w', w'.store.effects[i]) && w'.store.effects[i].request < n {
      TheEffect(w, i);
    }
    assert RequestOk(w'.store, w'.requests[n], n);
    forall r | 0 <= r < n ensures RequestOk(w'.store, w'.requests[r], r) {
      TheRequest(w, r);
    }
    AnswersStay(w, w');
    assert Once(w'.store.effects) && Held(w'.store) by { Unfold(w); }
    Fold(w');
  }

  lemma CrashKeeps(w: World, r: nat, w': World)
    requires Inv(w) && r < |w.requests| && w' == Put(w, r, w.requests[r].flags, Dead)
    ensures Inv(w')
  {
    forall i | 0 <= i < |w'.store.effects| ensures EffectOk(w', w'.store.effects[i]) {
      TheEffect(w, i);
    }
    forall k | 0 <= k < |w'.requests| ensures RequestOk(w'.store, w'.requests[k], k) {
      TheRequest(w, k);
    }
    AnswersStay(w, w');
    assert Once(w'.store.effects) && Held(w'.store) by { Unfold(w); }
    Fold(w');
  }

  lemma {:induction false} RunKeeps(steps: seq<Step>)
    ensures Inv(Exec(START, steps))
  {
    if steps == [] {
      Fold(START);
    } else {
      RunKeeps(steps[..|steps| - 1]);
      StepKeeps(Exec(START, steps[..|steps| - 1]), steps[|steps| - 1]);
    }
  }

  /** Whatever runs afterwards, what was committed and recorded stays. */
  lemma {:induction false} RunGrows(w: World, steps: seq<Step>)
    requires Inv(w)
    ensures Inv(Exec(w, steps)) && Grows(w.store, Exec(w, steps).store)
  {
    if steps != [] {
      var before := Exec(w, steps[..|steps| - 1]);
      RunGrows(w, steps[..|steps| - 1]);
      StepKeeps(before, steps[|steps| - 1]);
      var after := Exec(w, steps);
      assert before.store.effects[..|w.store.effects|] == w.store.effects;
      assert after.store.effects[..|w.store.effects|] == after.store.effects[..|before.store.effects|][..|w.store.effects|];
    }
  }

  // ----- results

  /** A key is held exactly when an effect committed under it: an attempt that rolled back leaves none. */
  lemma KeyHeldExactlyByEffect(steps: seq<Step>, n: Name)
    ensures
      var store := Exec(START, steps).store;
      n in store.keys <==> exists i :: 0 <= i < |store.effects| && Under(store.effects[i], n)
  {
    RunKeeps(steps);
    var w := Exec(START, steps);
    if n in w.store.keys {
      TheKey(w, n);
    } else {
      forall i | 0 <= i < |w.store.effects| ensures !Under(w.store.effects[i], n) {
        TheEffect(w, i);
      }
    }
  }

  /**
   Under one key only one request of a command that does not adopt ever commits anything, and a
   command of one transaction commits once; every effect under a key is of the same request content.
   */
  lemma EffectsOnce(steps: seq<Step>, i: nat, j: nat, n: Name)
    requires
      var effects := Exec(START, steps).store.effects;
      i < |effects| && j < |effects| && Under(effects[i], n) && Under(effects[j], n)
    ensures
      var effects := Exec(START, steps).store.effects;
      && effects[i].digest == effects[j].digest
      && (!Adopts(effects[i].digest) ==> effects[i].request == effects[j].request)
      && (effects[i].digest.route.shape.Single? ==> i == j)
  {
    RunKeeps(steps);
    var w := Exec(START, steps);
    TheEffect(w, i);
    TheEffect(w, j);
    assert Once(w.store.effects) by { Unfold(w); }
  }

  /**
   A command of one transaction commits its effect with its record: the response rendered from that
   effect less what is withheld, exactly when the view renders it as a success.
   */
  lemma EffectCommitsWithRecord(steps: seq<Step>, i: nat)
    requires
      var effects := Exec(START, steps).store.effects;
      i < |effects| && effects[i].claim.Some? && effects[i].digest.route.shape.Single?
    ensures
      var store := Exec(START, steps).store;
      var e := store.effects[i];
      var view := e.digest.route.view;
      && NameOf(e.claim.value) in store.keys
      && store.keys[NameOf(e.claim.value)] == Entry(e.digest,
           if Render(view, e.result).Some? && Success(view.status)
           then Some(Response(view.status, Render(view, e.result).value - e.digest.route.withheld)) else None)
  {
    RunKeeps(steps);
    var w := Exec(START, steps);
    TheEffect(w, i);
  }

  /** No record holds a withheld member, and every record is rendered from an effect under its key. */
  lemma NothingWithheldIsRecorded(steps: seq<Step>, n: Name)
    requires n in Exec(START, steps).store.keys && Exec(START, steps).store.keys[n].response.Some?
    ensures
      var store := Exec(START, steps).store;
      && (forall m :: m in store.keys[n].response.value.body ==> m !in store.keys[n].digest.route.withheld)
      && Success(store.keys[n].response.value.status)
      && exists i :: 0 <= i < |store.effects| && Under(store.effects[i], n) && RecordOf(store.effects[i]) == store.keys[n].response
  {
    RunKeeps(steps);
    TheKey(Exec(START, steps), n);
    RecordsWithhold(Exec(START, steps), n);
  }

  lemma RecordsWithhold(w: World, n: Name)
    requires Inv(w) && n in w.store.keys && KeyOk(w.store.effects, n, w.store.keys[n]) && w.store.keys[n].response.Some?
    ensures forall m :: m in w.store.keys[n].response.value.body ==> m !in w.store.keys[n].digest.route.withheld
    ensures Success(w.store.keys[n].response.value.status)
  {
    var i :| 0 <= i < |w.store.effects| && Under(w.store.effects[i], n) && RecordOf(w.store.effects[i]) == w.store.keys[n].response;
    TheEffect(w, i);
  }

  /** For a command of one transaction, what a retry is replayed is what the first caller was sent, less what is withheld. */
  lemma SingleReplaysFaithfully(steps: seq<Step>, live: nat, replay: nat)
    requires
      var w := Exec(START, steps);
      && live < |w.sent| && w.sent[live].answer.Live? && w.sent[live].request < |w.requests|
      && replay < |w.sent| && w.sent[replay].answer.Replayed? && w.sent[replay].request < |w.requests|
      && w.requests[w.sent[live].request].claim.Some?
      && w.requests[w.sent[replay].request].claim == w.requests[w.sent[live].request].claim
      && w.requests[w.sent[live].request].digest.route.shape.Single?
    ensures
      var w := Exec(START, steps);
      var first := w.sent[live].answer.response;
      w.sent[replay].answer.response == Response(first.status, first.body - w.requests[w.sent[live].request].digest.route.withheld)
  {
    RunKeeps(steps);
    var w := Exec(START, steps);
    var r := w.sent[live].request;
    var q := w.requests[r];
    TheRequest(w, r);
    TheRequest(w, w.sent[replay].request);
    TheAnswer(w, live);
    TheAnswer(w, replay);
    var i :| 0 <= i < |w.store.effects| && w.store.effects[i].request == r && LiveAnswer(q.digest.route, w.store.effects[i].result) == w.sent[live].answer;
    TheEffect(w, i);
  }

  /**
   A request whose key is held runs nothing: it is replayed, refused as in progress, or refused for its
   content. The one exception is a command that adopts, sent again before its first use completed.
   */
  lemma RetryRunsNothing(steps: seq<Step>, r: nat, outcome: Outcome, fate: Fate, more: bool)
    requires
      var w := Exec(START, steps);
      && r < |w.requests| && w.requests[r].pc == Running(0) && w.requests[r].claim.Some?
      && NameOf(w.requests[r].claim.value) in w.store.keys
      && !(Adopts(w.requests[r].digest) && w.store.keys[NameOf(w.requests[r].claim.value)] == Entry(w.requests[r].digest, None))
    ensures
      var w := Exec(START, steps);
      var entry := w.store.keys[NameOf(w.requests[r].claim.value)];
      var w' := Take(w, Transact(r, outcome, fate, more));
      && w'.store == w.store
      && w'.requests[r].pc == Answering(
           if entry.digest != w.requests[r].digest then Problem(KeyConflict)
           else if entry.response.Some? then Replayed(entry.response.value)
           else Problem(KeyInProgress))
  {
    RunKeeps(steps);
    var w := Exec(START, steps);
    TheRequest(w, r);
  }

  /** Once a command of one transaction committed under a key, no later step adds an effect or changes the record. */
  lemma SettledForGood(steps: seq<Step>, later: seq<Step>, i: nat)
    requires
      var effects := Exec(START, steps).store.effects;
      i < |effects| && effects[i].claim.Some? && effects[i].digest.route.shape.Single?
    ensures
      var store := Exec(START, steps).store;
      var store' := Exec(Exec(START, steps), later).store;
      var n := NameOf(store.effects[i].claim.value);
      && n in store.keys && n in store'.keys && store'.keys[n] == store.keys[n]
      && forall j :: 0 <= j < |store'.effects| && Under(store'.effects[j], n) ==> j == i
  {
    RunKeeps(steps);
    var w := Exec(START, steps);
    RunGrows(w, later);
    var w' := Exec(w, later);
    assert w'.store.effects[i] == w'.store.effects[..|w.store.effects|][i] == w.store.effects[i];
    TheEffect(w, i);
    TheEffect(w', i);
    assert Once(w'.store.effects) by { Unfold(w'); }
    forall j | 0 <= j < |w'.store.effects| && Under(w'.store.effects[j], NameOf(w.store.effects[i].claim.value)) ensures j == i {
      TheEffect(w', j);
    }
  }

  // ----- the answer a crash loses

  /** The one request that acted under the key is over, and its response was never recorded. */
  ghost predicate Orphaned(w: World, n: Name, o: nat) {
    && n in w.store.keys && w.store.keys[n].response.None? && !Adopts(w.store.keys[n].digest)
    && o < |w.requests| && (w.requests[o].pc.Dead? || w.requests[o].pc.Done?)
    && exists i :: 0 <= i < |w.store.effects| && Under(w.store.effects[i], n) && w.store.effects[i].request == o
  }

  /** A request that owes a record acted under its key itself. */
  lemma OrphanedRecord(w: World, r: nat, fate: Fate, n: Name, o: nat)
    requires Orphaned(w, n, o) && r < |w.requests| && w.requests[r].pc.Completing?
    requires Effects(w) && Once(w.store.effects) && RequestOk(w.store, w.requests[r], r)
    ensures var keys := RecordStep(w, r, fate).store.keys; n in keys && keys[n] == w.store.keys[n]
  {
    RecordStore(w, r, fate, RecordStep(w, r, fate));
  }

  lemma OrphanedTransact(w: World, r: nat, outcome: Outcome, fate: Fate, more: bool, n: Name)
    requires r < |w.requests| && w.requests[r].pc.Running? && RequestOk(w.store, w.requests[r], r) && n in w.store.keys
    ensures var keys := TransactStep(w, r, outcome, fate, more).store.keys; n in keys && keys[n] == w.store.keys[n]
  {
    var a := RunBody(w, r, outcome);
    if a.stopped.None? {
      BodyWrites(w, r, outcome.result, a);
    }
  }

  lemma OrphanedKey(w: World, s: Step, n: Name, o: nat)
    requires Inv(w) && Orphaned(w, n, o)
    ensures n in Take(w, s).store.keys && Take(w, s).store.keys[n] == w.store.keys[n]
  {
    if s.Transact? && s.r < |w.requests| && w.requests[s.r].pc.Running? {
      TheRequest(w, s.r);
      OrphanedTransact(w, s.r, s.outcome, s.fate, s.more, n);
    } else if s.Record? && s.r < |w.requests| && w.requests[s.r].pc.Completing? {
      Unfold(w);
      OrphanedRecord(w, s.r, s.fate, n, o);
    }
  }

  lemma OrphanedStep(w: World, s: Step, n: Name, o: nat)
    requires Orphaned(w, n, o) && Grows(w.store, Take(w, s).store)
    requires n in Take(w, s).store.keys && Take(w, s).store.keys[n] == w.store.keys[n]
    ensures Orphaned(Take(w, s), n, o)
  {
    var w' := Take(w, s);
    var i :| 0 <= i < |w.store.effects| && Under(w.store.effects[i], n) && w.store.effects[i].request == o;
    assert w'.store.effects[i] == w'.store.effects[..|w.store.effects|][i] == w.store.effects[i];
  }

  /** A request that dies before its late record, or whose record fails, leaves a key every retry is refused under, for ever. */
  lemma {:induction false} LostAnswerStaysLost(steps: seq<Step>, later: seq<Step>, n: Name, o: nat)
    requires Orphaned(Exec(START, steps), n, o)
    ensures Orphaned(Exec(Exec(START, steps), later), n, o)
  {
    RunKeeps(steps);
    if later != [] {
      LostAnswerStaysLost(steps, later[..|later| - 1], n, o);
      RunGrows(Exec(START, steps), later[..|later| - 1]);
      var w := Exec(Exec(START, steps), later[..|later| - 1]);
      StepKeeps(w, later[|later| - 1]);
      OrphanedKey(w, later[|later| - 1], n, o);
      OrphanedStep(w, later[|later| - 1], n, o);
    }
  }
}
