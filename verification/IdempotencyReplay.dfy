/** That what is replayed is what was sent, also where the record is written after the response. */
module IdempotencyReplay {
  import opened Base
  import opened Idempotency
  import opened IdempotencyResults

  /** The response a request may record of what it was answered. */
  function Kept(q: Request, answer: Answer): Option<Response> {
    if !answer.Live? || !Success(answer.response.status) then None
    else match Withhold(answer.response.body, q.digest.route.withheld)
      case None => None
      case Some(kept) => Some(Response(answer.response.status, kept))
  }

  /** The i-th answer sent is live and is what the response was kept from. */
  ghost predicate Backs(w: World, i: nat, response: Response) {
    && i < |w.sent| && w.sent[i].request < |w.requests| && w.sent[i].answer.Live?
    && Kept(w.requests[w.sent[i].request], w.sent[i].answer) == Some(response)
  }

  /** One answer a request, and none before it is due. */
  ghost predicate SentOnce(w: World) {
    && (forall i :: 0 <= i < |w.sent| ==>
          && w.sent[i].request < |w.requests|
          && !w.requests[w.sent[i].request].pc.Running? && !w.requests[w.sent[i].request].pc.Answering?)
    && (forall i, j :: 0 <= i < j < |w.sent| ==> w.sent[i].request != w.sent[j].request)
  }

  ghost predicate UnderName(w: World, i: nat, n: Name)
    requires i < |w.sent| && w.sent[i].request < |w.requests|
  {
    w.requests[w.sent[i].request].claim.Some? && NameOf(w.requests[w.sent[i].request].claim.value) == n
  }

  ghost predicate LateRecord(w: World, n: Name)
    requires n in w.store.keys
  {
    w.store.keys[n].digest.route.shape.Several? && w.store.keys[n].response.Some?
  }

  /** What a request still owes the key table is what it sent. */
  ghost predicate OwedWasSent(w: World) {
    forall r :: 0 <= r < |w.requests| && w.requests[r].pc.Completing? ==> Owes(w, r, w.requests[r].pc.response)
  }

  /** A record written after the response is what some request sent under the key. */
  ghost predicate RecordWasSent(w: World) {
    forall n :: n in w.store.keys && LateRecord(w, n) ==> Recorded(w, n, w.store.keys[n].response.value)
  }

  ghost predicate Sends(w: World) {
    SentOnce(w) && OwedWasSent(w) && RecordWasSent(w)
  }

  /** A later world: no request's content changed, and answers were only added. */
  ghost predicate Onward(w: World, w': World) {
    && w.sent <= w'.sent && |w.requests| <= |w'.requests|
    && forall r :: 0 <= r < |w.requests| ==> w'.requests[r].digest == w.requests[r].digest && w'.requests[r].claim == w.requests[r].claim
  }

  ghost predicate Owes(w: World, r: nat, response: Response) {
    exists i: nat :: Backs(w, i, response) && w.sent[i].request == r
  }

  ghost predicate Recorded(w: World, n: Name, response: Response) {
    exists i: nat :: Backs(w, i, response) && UnderName(w, i, n)
  }

  lemma OwesStays(w: World, w': World, r: nat, response: Response)
    requires Onward(w, w') && Owes(w, r, response)
    ensures Owes(w', r, response)
  {
    var i: nat :| Backs(w, i, response) && w.sent[i].request == r;
    assert Backs(w', i, response) && w'.sent[i].request == r;
  }

  lemma RecordedStays(w: World, w': World, n: Name, response: Response)
    requires Onward(w, w') && Recorded(w, n, response)
    ensures Recorded(w', n, response)
  {
    var i: nat :| Backs(w, i, response) && UnderName(w, i, n);
    assert Backs(w', i, response) && UnderName(w', i, n);
  }

  /** Debts and records are as they were, but for one request and one key that are accounted for. */
  lemma SendsStay(w: World, w': World, but: nat, named: Name)
    requires Sends(w) && SentOnce(w') && Onward(w, w')
    requires forall r :: 0 <= r < |w'.requests| && w'.requests[r].pc.Completing? ==>
               if r == but then Owes(w', r, w'.requests[r].pc.response) else r < |w.requests| && w'.requests[r].pc == w.requests[r].pc
    requires forall n :: n in w'.store.keys && LateRecord(w', n) ==>
               (n in w.store.keys && w'.store.keys[n] == w.store.keys[n])
               || (n == named && Recorded(w', n, w'.store.keys[n].response.value))
    ensures Sends(w')
  {
    forall r | 0 <= r < |w'.requests| && w'.requests[r].pc.Completing? ensures Owes(w', r, w'.requests[r].pc.response) {
      if r != but {
        OwesStays(w, w', r, w.requests[r].pc.response);
      }
    }
    forall n | n in w'.store.keys && LateRecord(w', n) ensures Recorded(w', n, w'.store.keys[n].response.value) {
      if n in w.store.keys && w'.store.keys[n] == w.store.keys[n] {
        RecordedStays(w, w', n, w.store.keys[n].response.value);
      }
    }
  }

  /** No transaction of a command of several writes a response. */
  lemma TransactRecordsNone(w: World, r: nat, outcome: Outcome, fate: Fate, more: bool, n: Name)
    requires r < |w.requests| && w.requests[r].pc.Running? && RequestOk(w.store, w.requests[r], r)
    requires
      var keys := TransactStep(w, r, outcome, fate, more).store.keys;
      n in keys && keys[n].digest.route.shape.Several? && keys[n].response.Some?
    ensures n in w.store.keys && TransactStep(w, r, outcome, fate, more).store.keys[n] == w.store.keys[n]
  {
    var a := RunBody(w, r, outcome);
    if a.stopped.None? {
      BodyWrites(w, r, outcome.result, a);
    }
  }

  lemma TransactSends(w: World, r: nat, outcome: Outcome, fate: Fate, more: bool, w': World)
    requires Inv(w) && Sends(w) && r < |w.requests| && w.requests[r].pc.Running? && w' == TransactStep(w, r, outcome, fate, more)
    ensures Sends(w')
  {
    TheRequest(w, r);
    forall n | n in w'.store.keys && LateRecord(w', n) ensures n in w.store.keys && w'.store.keys[n] == w.store.keys[n] {
      TransactRecordsNone(w, r, outcome, fate, more, n);
    }
    SendsStay(w, w', r, ("", ""));
  }

  lemma ReplySends(w: World, r: nat, w': World)
    requires Sends(w) && r < |w.requests| && w.requests[r].pc.Answering? && w' == ReplyStep(w, r)
    ensures Sends(w')
  {
    if w'.requests[r].pc.Completing? {
      assert Backs(w', |w.sent|, w'.requests[r].pc.response);
    }
    SendsStay(w, w', r, ("", ""));
  }

  lemma RecordSends(w: World, r: nat, fate: Fate, w': World)
    requires Inv(w) && Sends(w) && r < |w.requests| && w.requests[r].pc.Completing? && w' == RecordStep(w, r, fate)
    ensures Sends(w')
  {
    var q := w.requests[r];
    TheRequest(w, r);
    var n := NameOf(q.claim.value);
    assert Owes(w, r, q.pc.response);
    OwesStays(w, w', r, q.pc.response);
    var i: nat :| Backs(w', i, q.pc.response) && w'.sent[i].request == r;
    assert UnderName(w', i, n);
    SendsStay(w, w', r, n);
  }

  lemma StepSends(w: World, s: Step)
    requires Inv(w) && Sends(w)
    ensures Sends(Take(w, s))
  {
    var w' := Take(w, s);
    if w' == w {
    } else if s.Transact? {
      TransactSends(w, s.r, s.outcome, s.fate, s.more, w');
    } else if s.Reply? {
      ReplySends(w, s.r, w');
    } else if s.Record? {
      RecordSends(w, s.r, s.fate, w');
    } else {
      SendsStay(w, w', |w.requests|, ("", ""));
    }
  }

  lemma {:induction false} RunSends(steps: seq<Step>)
    ensures Sends(Exec(START, steps))
  {
    if steps != [] {
      RunSends(steps[..|steps| - 1]);
      RunKeeps(steps[..|steps| - 1]);
      StepSends(Exec(START, steps[..|steps| - 1]), steps[|steps| - 1]);
    }
  }

  /** A live answer was sent by a request that acted under its key. */
  lemma LiveActed(w: World, i: nat, n: Name) returns (e: nat)
    requires Inv(w) && i < |w.sent| && w.sent[i].answer.Live? && w.sent[i].request < |w.requests| && UnderName(w, i, n)
    ensures e < |w.store.effects| && w.store.effects[e].request == w.sent[i].request && Under(w.store.effects[e], n)
  {
    TheAnswer(w, i);
    var q := w.requests[w.sent[i].request];
    e :| 0 <= e < |w.store.effects| && w.store.effects[e].request == w.sent[i].request
         && LiveAnswer(q.digest.route, w.store.effects[e].result) == w.sent[i].answer;
    TheEffect(w, e);
  }

  /** For a command of several transactions that does not adopt, the record is of the one live answer. */
  lemma SeveralReplaysFaithfully(w: World, live: nat, n: Name)
    requires Inv(w) && Sends(w) && live < |w.sent| && w.sent[live].answer.Live? && w.sent[live].request < |w.requests| && UnderName(w, live, n)
    requires n in w.store.keys && w.store.keys[n].response.Some? && w.store.keys[n].digest == w.requests[w.sent[live].request].digest
    requires w.store.keys[n].digest.route.shape.Several? && !Adopts(w.store.keys[n].digest)
    ensures Kept(w.requests[w.sent[live].request], w.sent[live].answer) == w.store.keys[n].response
  {
    assert LateRecord(w, n);
    var i: nat :| Backs(w, i, w.store.keys[n].response.value) && UnderName(w, i, n);
    var a := LiveActed(w, live, n);
    var b := LiveActed(w, i, n);
    TheEffect(w, a);
    TheEffect(w, b);
    assert Once(w.store.effects) by { Unfold(w); }
    assert w.sent[i].request == w.sent[live].request;
  }

  /**
   Whatever a retry is replayed is what the first caller was sent, less what is withheld: for every
   command but one that adopts, whether its response is recorded with the effect or after it.
   */
  lemma ReplaysFaithfully(steps: seq<Step>, live: nat, replay: nat)
    requires
      var w := Exec(START, steps);
      && live < |w.sent| && w.sent[live].answer.Live? && w.sent[live].request < |w.requests|
      && replay < |w.sent| && w.sent[replay].answer.Replayed? && w.sent[replay].request < |w.requests|
      && w.requests[w.sent[live].request].claim.Some?
      && w.requests[w.sent[replay].request].claim == w.requests[w.sent[live].request].claim
      && !Adopts(w.requests[w.sent[live].request].digest)
    ensures
      var w := Exec(START, steps);
      var first := w.sent[live].answer.response;
      w.sent[replay].answer.response == Response(first.status, first.body - w.requests[w.sent[live].request].digest.route.withheld)
  {
    var w := Exec(START, steps);
    if w.requests[w.sent[live].request].digest.route.shape.Single? {
      SingleReplaysFaithfully(steps, live, replay);
    } else {
      RunKeeps(steps);
      RunSends(steps);
      TheRequest(w, w.sent[live].request);
      TheRequest(w, w.sent[replay].request);
      TheAnswer(w, replay);
      SeveralReplaysFaithfully(w, live, NameOf(w.requests[w.sent[live].request].claim.value));
    }
  }

  /** Where a command adopts, a record written after the response is still what some request sent under the key. */
  lemma AdoptedReplayWasSent(steps: seq<Step>, n: Name)
    requires
      var keys := Exec(START, steps).store.keys;
      n in keys && keys[n].response.Some? && keys[n].digest.route.shape.Several?
    ensures
      var w := Exec(START, steps);
      exists i: nat :: Backs(w, i, w.store.keys[n].response.value) && UnderName(w, i, n)
  {
    RunSends(steps);
    assert LateRecord(Exec(START, steps), n);
  }
}
