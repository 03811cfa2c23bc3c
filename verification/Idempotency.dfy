/**
 Idempotency keys (internal/db/idempotency.go, internal/httpapi/idempotency.go). A request carries
 its claim to the first scoped transaction it opens, which makes the claim beside the effect; a
 command that commits in one transaction records its response there too, and any other has it
 recorded afterwards, in a transaction of its own. Requests interleave transaction by transaction and
 the process may die between any two.
 */
module Idempotency {
  import opened Base

  /** A JSON object, by its members. */
  type Body = map<string, string>

  datatype Response = Response(status: int, body: Body)

  /** Single hands its result to Respond in its one transaction; Several does not, and may adopt. */
  datatype Shape = Single | Several(adopts: bool)

  /** The view renders each named member from a field of the command's result. */
  datatype View = View(status: int, members: map<string, string>)

  datatype Route = Route(verb: string, path: string, shape: Shape, view: View, withheld: set<string>)

  /** The hash of method, path and body is taken as injective; method and path select the route. */
  datatype Digest = Digest(route: Route, payload: string)

  datatype Claim = Claim(scope: string, key: string, digest: Digest)

  /** The caller and its key: what a row of the key table is found by. */
  type Name = (string, string)

  function NameOf(c: Claim): Name {
    (c.scope, c.key)
  }

  datatype Entry = Entry(digest: Digest, response: Option<Response>)

  type Keys = map<Name, Entry>

  /** One committed transaction of a command. */
  datatype Effect = Effect(request: nat, claim: Option<Claim>, digest: Digest, result: Body)

  datatype Store = Store(keys: Keys, effects: seq<Effect>)

  // ----- the key table

  datatype Found = Claimed | Replay(response: Response) | Conflict | InProgress

  function Find(keys: Keys, c: Claim): Found {
    if NameOf(c) !in keys then Claimed
    else if keys[NameOf(c)].digest != c.digest then Conflict
    else match keys[NameOf(c)].response
      case None => InProgress
      case Some(response) => Replay(response)
  }

  /** Stores the response of a claimed, uncompleted key; any other update matches no row. */
  function Complete(keys: Keys, c: Claim, response: Response): Option<Keys> {
    if NameOf(c) in keys && keys[NameOf(c)] == Entry(c.digest, None)
    then Some(keys[NameOf(c) := Entry(c.digest, Some(response))]) else None
  }

  /** The body a record may hold: without the members withheld, each of which must be there. */
  function Withhold(body: Body, withheld: set<string>): Option<Body> {
    if withheld <= body.Keys then Some(body - withheld) else None
  }

  // ----- rendering

  function Render(view: View, result: Body): Option<Body> {
    if view.members.Values <= result.Keys
    then Some(map m | m in view.members :: result[view.members[m]]) else None
  }

  predicate Success(status: int) {
    200 <= status <= 299
  }

  // ----- the claim as it travels with a request

  datatype Flags = Flags(consumed: bool, made: bool, adopted: bool, completed: bool)

  const UNUSED := Flags(false, false, false, false)

  datatype Problem = KeyConflict | KeyInProgress | Refused | NotRecorded | Lost | Unrendered

  datatype Answer = Live(response: Response) | Replayed(response: Response) | Problem(problem: Problem)

  /** `claiming`: this is the transaction that made the claim, the only one Respond acts in. */
  datatype Verdict = Proceed(claiming: bool) | Stop(answer: Answer)

  function ClaimWithin(keys: Keys, claim: Option<Claim>, flags: Flags, adopts: bool): (Keys, Flags, Verdict) {
    if claim.None? || flags.consumed then (keys, flags, Proceed(false))
    else match Find(keys, claim.value)
      case Claimed =>
        (keys[NameOf(claim.value) := Entry(claim.value.digest, None)], flags.(consumed := true, made := true), Proceed(true))
      case Replay(response) => (keys, flags.(consumed := true), Stop(Replayed(response)))
      case Conflict => (keys, flags, Stop(Problem(KeyConflict)))
      case InProgress =>
        if adopts then (keys, flags.(consumed := true, made := true, adopted := true), Proceed(true))
        else (keys, flags, Stop(Problem(KeyInProgress)))
  }

  /** None when the store refuses the record: the transaction then rolls back. */
  function Respond(keys: Keys, claim: Option<Claim>, flags: Flags, claiming: bool, route: Route, result: Body): Option<(Keys, Flags)> {
    if claim.None? || !claiming || flags.completed then Some((keys, flags))
    else match Render(route.view, result)
      case None => Some((keys, flags))
      case Some(body) =>
        if !Success(route.view.status) then Some((keys, flags))
        else match Withhold(body, route.withheld)
          case None => None
          case Some(kept) =>
            match Complete(keys, claim.value, Response(route.view.status, kept))
            case None => None
            case Some(keys') => Some((keys', flags.(completed := true)))
  }

  // ----- requests

  datatype Pc =
    | Running(done: nat)               // transactions it has committed
    | Answering(answer: Answer)        // the service returned; nothing is written to the caller yet
    | Completing(response: Response)   // answered; the record is still owed
    | Done
    | Dead

  datatype Request = Request(claim: Option<Claim>, digest: Digest, flags: Flags, pc: Pc)

  datatype Sent = Sent(request: nat, answer: Answer)

  datatype World = World(store: Store, requests: seq<Request>, sent: seq<Sent>)

  /** What a command's body does in one transaction. */
  datatype Outcome = Fails | Returns(result: Body)

  /** What becomes of the commit. Unheard: it committed and reported an error. */
  datatype Fate = Commits | Unheard | RollsBack

  datatype Step =
    | Arrive(scope: string, key: string, digest: Digest)
    | Transact(r: nat, outcome: Outcome, fate: Fate, more: bool)
    | Reply(r: nat)
    | Record(r: nat, fate: Fate)
    | Crash(r: nat)

  /** A claim with a blank part is not carried: the request runs without one. */
  function WithClaim(scope: string, key: string, digest: Digest): Option<Claim> {
    if Blank(scope) || Blank(key) then None else Some(Claim(scope, key, digest))
  }

  function Put(w: World, r: nat, flags: Flags, pc: Pc): World
    requires r < |w.requests|
  {
    w.(requests := w.requests[r := w.requests[r].(flags := flags, pc := pc)])
  }

  /** The transaction as its body leaves it, before the commit: the flags change whatever becomes of it. */
  datatype Attempt = Attempt(store: Store, flags: Flags, stopped: Option<Answer>)

  function RunBody(w: World, r: nat, outcome: Outcome): Attempt
    requires r < |w.requests|
  {
    var q := w.requests[r];
    var route := q.digest.route;
    var (keys, flags, verdict) := ClaimWithin(w.store.keys, q.claim, q.flags, route.shape.Several? && route.shape.adopts);
    match verdict
    case Stop(answer) => Attempt(w.store, flags, Some(answer))
    case Proceed(claiming) =>
      match outcome
      case Fails => Attempt(w.store, flags, Some(Problem(Refused)))
      case Returns(result) =>
        var effects := w.store.effects + [Effect(r, q.claim, q.digest, result)];
        if route.shape.Several? then Attempt(Store(keys, effects), flags, None)
        else
          match Respond(keys, q.claim, flags, claiming, route, result)
          case None => Attempt(w.store, flags, Some(Problem(NotRecorded)))
          case Some((keys', flags')) => Attempt(Store(keys', effects), flags', None)
  }

  function LiveAnswer(route: Route, result: Body): Answer {
    match Render(route.view, result)
    case None => Problem(Unrendered)
    case Some(body) => Live(Response(route.view.status, body))
  }

  /** A service that fails before its first commit returns; later it may go on to another transaction. */
  function TransactStep(w: World, r: nat, outcome: Outcome, fate: Fate, more: bool): World
    requires r < |w.requests| && w.requests[r].pc.Running?
  {
    var q := w.requests[r];
    var a := RunBody(w, r, outcome);
    var ok := a.stopped.None? && fate == Commits;
    var store := if a.stopped.None? && fate != RollsBack then a.store else w.store;
    var done := q.pc.done + if ok then 1 else 0;
    var answer :=
      if a.stopped.Some? then a.stopped.value
      else if fate != Commits || outcome.Fails? then Problem(Lost)
      else LiveAnswer(q.digest.route, outcome.result);
    var pc := if q.digest.route.shape.Several? && more && done > 0 then Running(done) else Answering(answer);
    Put(w, r, a.flags, pc).(store := store)
  }

  /** What the middleware owes the key table once the response is written. */
  function Owed(q: Request, answer: Answer): Option<Response> {
    if !q.flags.made || q.flags.completed || !answer.Live? || !Success(answer.response.status) then None
    else match Withhold(answer.response.body, q.digest.route.withheld)
      case None => None
      case Some(kept) => Some(Response(answer.response.status, kept))
  }

  function ReplyStep(w: World, r: nat): World
    requires r < |w.requests| && w.requests[r].pc.Answering?
  {
    var q := w.requests[r];
    var owed := Owed(q, q.pc.answer);
    Put(w, r, q.flags, if owed.Some? then Completing(owed.value) else Done).(sent := w.sent + [Sent(r, q.pc.answer)])
  }

  function RecordStep(w: World, r: nat, fate: Fate): World
    requires r < |w.requests| && w.requests[r].pc.Completing?
  {
    var q := w.requests[r];
    var keys := if q.claim.None? then None else Complete(w.store.keys, q.claim.value, q.pc.response);
    Put(w, r, q.flags, Done).(store := if keys.Some? && fate != RollsBack then w.store.(keys := keys.value) else w.store)
  }

  function Take(w: World, s: Step): World {
    match s
    case Arrive(scope, key, digest) =>
      w.(requests := w.requests + [Request(WithClaim(scope, key, digest), digest, UNUSED, Running(0))])
    case Transact(r, outcome, fate, more) =>
      if r < |w.requests| && w.requests[r].pc.Running? then TransactStep(w, r, outcome, fate, more) else w
    case Reply(r) => if r < |w.requests| && w.requests[r].pc.Answering? then ReplyStep(w, r) else w
    case Record(r, fate) => if r < |w.requests| && w.requests[r].pc.Completing? then RecordStep(w, r, fate) else w
    case Crash(r) => if r < |w.requests| then Put(w, r, w.requests[r].flags, Dead) else w
  }

  function Exec(w: World, steps: seq<Step>): World {
    if steps == [] then w else Take(Exec(w, steps[..|steps| - 1]), steps[|steps| - 1])
  }

  const START := World(Store(map[], []), [], [])
}
