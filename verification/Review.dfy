/**
 Reviews of privileged access (internal/authority/review.go). An access row is stamped when the
 transaction that writes it starts and is seen when it commits; a review stores the number of
 accesses its period holds then. The database clock never goes back, and rows are not purged.
 */
module Review {
  import opened Base

  datatype Authority = Emergency | Activation | Eligible | Consumer | Reporter

  datatype Access = Access(actor: Id, authority: Authority, at: int)

  datatype Review = Review(actor: Id, from: int, to: int, outcome: string, accesses: nat, emergency: nat, reviewedBy: Id, reviewedAt: int)

  /** `open` are the accesses whose transactions have not ended. */
  datatype Log = Log(now: int, open: seq<Access>, accesses: seq<Access>, reviews: seq<Review>)

  const DUE := 7 * 24 * 60 * 60 * SECOND

  datatype Error = Invalid | ReasonRequired | SelfReview

  datatype Request = Request(actor: Id, from: Option<int>, to: Option<int>, outcome: string, statement: string)

  /** Workloads are reviewed through their owners. */
  predicate Provider(a: Access) {
    a.authority != Consumer && a.authority != Reporter
  }

  predicate Within(a: Access, actor: Id, from: int, to: int) {
    Provider(a) && a.actor == actor && from <= a.at < to
  }

  predicate Covers(r: Review, a: Access) {
    Within(a, r.actor, r.from, r.to)
  }

  function Count(accesses: seq<Access>, actor: Id, from: int, to: int): nat {
    if accesses == [] then 0
    else Count(accesses[..|accesses| - 1], actor, from, to) + if Within(accesses[|accesses| - 1], actor, from, to) then 1 else 0
  }

  function CountEmergency(accesses: seq<Access>, actor: Id, from: int, to: int): nat {
    if accesses == [] then 0
    else CountEmergency(accesses[..|accesses| - 1], actor, from, to)
         + if Within(accesses[|accesses| - 1], actor, from, to) && accesses[|accesses| - 1].authority == Emergency then 1 else 0
  }

  function Check(reviewer: Id, req: Request): Option<Error> {
    if req.actor == NIL || req.from.None? || req.to.None? || req.to.value <= req.from.value then Some(Invalid)
    else if req.outcome != "appropriate" && req.outcome != "escalated" then Some(Invalid)
    else if Blank(req.statement) then Some(ReasonRequired)
    else if reviewer == req.actor then Some(SelfReview)
    else None
  }

  /** `started` is when the review's own transaction began: the period must have ended by then. */
  function RecordTx(log: Log, reviewer: Id, req: Request, started: int): Result<Log, Error> {
    var refusal := Check(reviewer, req);
    if refusal.Some? || req.from.None? || req.to.None? then Err(if refusal.Some? then refusal.value else Invalid)
    else if req.to.value > started then Err(Invalid)
    else
      var from, to := req.from.value, req.to.value;
      var r := Review(req.actor, from, to, req.outcome, Count(log.accesses, req.actor, from, to),
                      CountEmergency(log.accesses, req.actor, from, to), reviewer, started);
      Ok(log.(reviews := log.reviews + [r]))
  }

  datatype Step =
    | Tick(elapsed: nat)
    | Open(actor: Id, authority: Authority)
    | Close(i: nat, commits: bool)
    | Record(reviewer: Id, req: Request, started: int)

  function Take(log: Log, s: Step): Log {
    match s
    case Tick(elapsed) => log.(now := log.now + elapsed)
    case Open(actor, authority) => log.(open := log.open + [Access(actor, authority, log.now)])
    case Close(i, commits) =>
      if i >= |log.open| then log
      else log.(open := log.open[..i] + log.open[i + 1..], accesses := if commits then log.accesses + [log.open[i]] else log.accesses)
    case Record(reviewer, req, started) =>
      var result := RecordTx(log, reviewer, req, started);
      if started <= log.now && result.Ok? then result.value else log
  }

  function Exec(log: Log, steps: seq<Step>): Log {
    if steps == [] then log else Take(Exec(log, steps[..|steps| - 1]), steps[|steps| - 1])
  }

  function Init(now: int): Log {
    Log(now, [], [], [])
  }

  // ----- what every run keeps

  ghost predicate ReviewOk(r: Review, now: int) {
    r.from < r.to <= r.reviewedAt <= now && r.reviewedBy != r.actor
  }

  ghost predicate Inv(log: Log) {
    && (forall i :: 0 <= i < |log.open| ==> log.open[i].at <= log.now)
    && (forall i :: 0 <= i < |log.accesses| ==> log.accesses[i].at <= log.now)
    && (forall k :: 0 <= k < |log.reviews| ==> ReviewOk(log.reviews[k], log.now))
  }

  lemma {:induction false} RunKeeps(log: Log, steps: seq<Step>)
    requires Inv(log)
    ensures Inv(Exec(log, steps)) && log.now <= Exec(log, steps).now && log.reviews <= Exec(log, steps).reviews && log.accesses <= Exec(log, steps).accesses
  {
    if steps != [] {
      RunKeeps(log, steps[..|steps| - 1]);
    }
  }

  lemma CountOfAppend(accesses: seq<Access>, a: Access, actor: Id, from: int, to: int)
    ensures Count(accesses + [a], actor, from, to) == Count(accesses, actor, from, to) + if Within(a, actor, from, to) then 1 else 0
    ensures CountEmergency(accesses + [a], actor, from, to)
            == CountEmergency(accesses, actor, from, to) + if Within(a, actor, from, to) && a.authority == Emergency then 1 else 0
  {
    assert (accesses + [a])[..|accesses|] == accesses;
  }

  // ----- what is counted, over the rows' own fields

  /** A provider access of the Principal, stamped in the period, its end excluded. */
  ghost predicate Belongs(a: Access, actor: Id, from: int, to: int) {
    a.authority != Consumer && a.authority != Reporter && a.actor == actor && from <= a.at && a.at < to
  }

  /** The places of the rows of which p holds. */
  ghost function Where(accesses: seq<Access>, p: Access -> bool): set<int> {
    set i | 0 <= i < |accesses| && p(accesses[i])
  }

  lemma WhereOneMore(accesses: seq<Access>, p: Access -> bool)
    requires accesses != []
    ensures
      var n := |accesses| - 1;
      |Where(accesses, p)| == |Where(accesses[..n], p)| + if p(accesses[n]) then 1 else 0
  {
    var n := |accesses| - 1;
    var before := Where(accesses[..n], p);
    assert forall i :: 0 <= i < n ==> accesses[..n][i] == accesses[i];
    assert Where(accesses, p) == if p(accesses[n]) then before + {n} else before;
  }

  ghost function InPeriod(accesses: seq<Access>, actor: Id, from: int, to: int): set<int> {
    Where(accesses, a => Belongs(a, actor, from, to))
  }

  /** Those of them under emergency authority. */
  ghost function EmergencyIn(accesses: seq<Access>, actor: Id, from: int, to: int): set<int> {
    Where(accesses, (a: Access) => a.authority == Emergency && Belongs(a, actor, from, to))
  }

  /** The two counts of a review are the numbers of such rows. */
  lemma {:induction false} CountedExactly(accesses: seq<Access>, actor: Id, from: int, to: int)
    ensures Count(accesses, actor, from, to) == |InPeriod(accesses, actor, from, to)|
    ensures CountEmergency(accesses, actor, from, to) == |EmergencyIn(accesses, actor, from, to)|
  {
    if accesses != [] {
      CountedExactly(accesses[..|accesses| - 1], actor, from, to);
      WhereOneMore(accesses, a => Belongs(a, actor, from, to));
      WhereOneMore(accesses, (a: Access) => a.authority == Emergency && Belongs(a, actor, from, to));
    }
  }

  // ----- nobody reviews itself, and nothing later is covered

  /** A review is another provider's, of a period that was over. */
  lemma NobodyReviewsItself(now: int, steps: seq<Step>, k: nat)
    requires k < |Exec(Init(now), steps).reviews|
    ensures
      var r := Exec(Init(now), steps).reviews[k];
      r.reviewedBy != r.actor && r.from < r.to <= r.reviewedAt
  {
    RunKeeps(Init(now), steps);
  }

  /** What is still open, or committed since `log`, is not covered by r unless it was open then. */
  ghost predicate Quiet(log: Log, later: Log, r: Review) {
    && Count(later.accesses, r.actor, r.from, r.to) == Count(log.accesses, r.actor, r.from, r.to)
    && CountEmergency(later.accesses, r.actor, r.from, r.to) == CountEmergency(log.accesses, r.actor, r.from, r.to)
    && forall i :: 0 <= i < |later.open| ==> !Covers(r, later.open[i])
  }

  lemma {:induction false} StaysQuiet(log: Log, r: Review, steps: seq<Step>)
    requires Inv(log) && r.to <= log.now && forall i :: 0 <= i < |log.open| ==> !Covers(r, log.open[i])
    ensures Quiet(log, Exec(log, steps), r)
  {
    if steps != [] {
      var before := Exec(log, steps[..|steps| - 1]);
      StaysQuiet(log, r, steps[..|steps| - 1]);
      RunKeeps(log, steps[..|steps| - 1]);
      var s := steps[|steps| - 1];
      if s.Close? && s.i < |before.open| && s.commits {
        CountOfAppend(before.accesses, before.open[s.i], r.actor, r.from, r.to);
      }
    }
  }

  /** An access that starts once a review is recorded is covered by neither it nor any earlier review. */
  lemma LaterIsNeverCovered(now: int, steps: seq<Step>, k: nat, actor: Id, authority: Authority)
    requires k < |Exec(Init(now), steps).reviews|
    ensures
      var log := Exec(Init(now), steps);
      var later := Take(log, Open(actor, authority));
      |later.open| == |log.open| + 1 && !Covers(log.reviews[k], later.open[|log.open|])
  {
    RunKeeps(Init(now), steps);
  }

  // ----- whether the counts stay true

  ghost predicate CountsHold(log: Log, r: Review) {
    Count(log.accesses, r.actor, r.from, r.to) == r.accesses && CountEmergency(log.accesses, r.actor, r.from, r.to) == r.emergency
  }

  /**
   The counts a review stores stay equal to the accesses its period holds, in every continuation,
   exactly when no access stamped in the period was still uncommitted when it was recorded.
   */
  lemma CountsStayTrueExactlyWhen(now: int, steps: seq<Step>, reviewer: Id, req: Request, started: int)
    requires started <= Exec(Init(now), steps).now && RecordTx(Exec(Init(now), steps), reviewer, req, started).Ok?
    ensures
      var before := Exec(Init(now), steps);
      var log := Take(before, Record(reviewer, req, started));
      var r := log.reviews[|before.reviews|];
      (forall later :: CountsHold(Exec(log, later), r)) <==> forall i :: 0 <= i < |before.open| ==> !Covers(r, before.open[i])
  {
    var before := Exec(Init(now), steps);
    var log := Take(before, Record(reviewer, req, started));
    var r := log.reviews[|before.reviews|];
    RunKeeps(Init(now), steps);
    RunKeeps(before, [Record(reviewer, req, started)]);
    if forall i :: 0 <= i < |before.open| ==> !Covers(r, before.open[i]) {
      forall later ensures CountsHold(Exec(log, later), r) {
        StaysQuiet(log, r, later);
      }
    } else {
      var i :| 0 <= i < |before.open| && Covers(r, before.open[i]);
      LateCommitBreaks(log, r, i);
    }
  }

  lemma LateCommitBreaks(log: Log, r: Review, i: nat)
    requires i < |log.open| && Covers(r, log.open[i]) && CountsHold(log, r)
    ensures exists later :: !CountsHold(Exec(log, later), r)
  {
    var later := [Close(i, true)];
    CountOfAppend(log.accesses, log.open[i], r.actor, r.from, r.to);
    assert Exec(log, later[..0]) == log;
    assert Exec(log, later) == Take(log, Close(i, true));
    assert !CountsHold(Exec(log, later), r);
  }

  /** An access that started at 0 is still open at 5. */
  lemma OpenAtFive(steps: seq<Step>)
    requires steps == [Open(2, Activation), Tick(5)]
    ensures Exec(Init(0), steps) == Log(5, [Access(2, Activation, 0)], [], [])
  {
    assert steps[..1] == [Open(2, Activation)] && steps[..1][..0] == [];
    assert Exec(Init(0), steps[..1][..0]) == Init(0);
    assert Exec(Init(0), steps[..1]) == Log(0, [Access(2, Activation, 0)], [], []);
  }

  /**
   It does happen: with that access open, the period from 0 to 1 is reviewed and found empty; then the
   access commits, inside the period.
   */
  lemma LateCommitUndercounts()
    ensures
      var req := Request(2, Some(0), Some(1), "appropriate", "weekly");
      var before := Exec(Init(0), [Open(2, Activation), Tick(5)]);
      var log := Take(before, Record(1, req, 5));
      var later := Take(log, Close(0, true));
      && |log.reviews| == 1 && log.reviews[0].accesses == 0 && CountsHold(log, log.reviews[0])
      && later.reviews == log.reviews && Count(later.accesses, 2, 0, 1) == 1 && !CountsHold(later, later.reviews[0])
  {
    OpenAtFive([Open(2, Activation), Tick(5)]);
    var a := Access(2, Activation, 0);
    var req := Request(2, Some(0), Some(1), "appropriate", "weekly");
    assert !Blank("weekly") by { assert 'w' in "weekly" && 'w' !in " \t\n\r"; }
    var log := Log(5, [a], [], [Review(2, 0, 1, "appropriate", 0, 0, 1, 5)]);
    assert Take(Log(5, [a], [], []), Record(1, req, 5)) == log;
    CountOfAppend([], a, 2, 0, 1);
    assert [] + [a] == [a];
    assert Take(log, Close(0, true)).accesses == [a];
  }

  // ----- conservation

  predicate Reviewed(reviews: seq<Review>, a: Access) {
    exists k :: 0 <= k < |reviews| && Covers(reviews[k], a)
  }

  function Total(accesses: seq<Access>, actor: Id): nat {
    if accesses == [] then 0
    else var a := accesses[|accesses| - 1];
      Total(accesses[..|accesses| - 1], actor) + if Provider(a) && a.actor == actor then 1 else 0
  }

  function CountReviewed(accesses: seq<Access>, reviews: seq<Review>, actor: Id): nat {
    if accesses == [] then 0
    else var a := accesses[|accesses| - 1];
      CountReviewed(accesses[..|accesses| - 1], reviews, actor) + if Provider(a) && a.actor == actor && Reviewed(reviews, a) then 1 else 0
  }

  /** The report's count: accesses of the Principal that no review of it covers. */
  function CountUnreviewed(accesses: seq<Access>, reviews: seq<Review>, actor: Id): nat {
    if accesses == [] then 0
    else var a := accesses[|accesses| - 1];
      CountUnreviewed(accesses[..|accesses| - 1], reviews, actor) + if Provider(a) && a.actor == actor && !Reviewed(reviews, a) then 1 else 0
  }

  /** What the reviews of the Principal count between them, with repetition. */
  function SumOfCounts(accesses: seq<Access>, reviews: seq<Review>, actor: Id): nat {
    if reviews == [] then 0
    else var r := reviews[|reviews| - 1];
      SumOfCounts(accesses, reviews[..|reviews| - 1], actor) + if r.actor == actor then Count(accesses, r.actor, r.from, r.to) else 0
  }

  /** How many reviews cover one access. */
  function Times(reviews: seq<Review>, a: Access): nat {
    if reviews == [] then 0
    else Times(reviews[..|reviews| - 1], a) + if Covers(reviews[|reviews| - 1], a) then 1 else 0
  }

  lemma {:induction false} TimesPositive(reviews: seq<Review>, a: Access)
    ensures Times(reviews, a) > 0 <==> Reviewed(reviews, a)
  {
    if reviews != [] {
      var n := |reviews| - 1;
      TimesPositive(reviews[..n], a);
      if Reviewed(reviews[..n], a) {
        var k :| 0 <= k < n && Covers(reviews[..n][k], a);
        assert Covers(reviews[k], a);
      } else {
        assert forall k :: 0 <= k < n ==> reviews[..n][k] == reviews[k];
      }
    }
  }

  /** One access adds to the counts once for every review that covers it. */
  lemma {:induction false} SumOfAppend(accesses: seq<Access>, a: Access, reviews: seq<Review>, actor: Id)
    ensures SumOfCounts(accesses + [a], reviews, actor) == SumOfCounts(accesses, reviews, actor) + if a.actor == actor then Times(reviews, a) else 0
  {
    if reviews != [] {
      var r := reviews[|reviews| - 1];
      SumOfAppend(accesses, a, reviews[..|reviews| - 1], actor);
      CountOfAppend(accesses, a, r.actor, r.from, r.to);
    }
  }

  lemma {:induction false} NothingCounted(reviews: seq<Review>, actor: Id)
    ensures SumOfCounts([], reviews, actor) == 0
  {
    if reviews != [] {
      NothingCounted(reviews[..|reviews| - 1], actor);
    }
  }

  lemma {:induction false} OutsiderUncounted(reviews: seq<Review>, a: Access)
    requires !Provider(a)
    ensures Times(reviews, a) == 0
  {
    if reviews != [] {
      OutsiderUncounted(reviews[..|reviews| - 1], a);
    }
  }

  ghost predicate CoveredTwice(accesses: seq<Access>, reviews: seq<Review>, actor: Id) {
    exists i :: 0 <= i < |accesses| && accesses[i].actor == actor && Times(reviews, accesses[i]) > 1
  }

  /**
   Per Principal, reviewed and unreviewed accesses add up to all of them; the reviews together count
   at least the reviewed ones, and exactly those when no access falls in two reviewed periods.
   */
  lemma {:induction false} AccessesConserved(accesses: seq<Access>, reviews: seq<Review>, actor: Id)
    ensures CountReviewed(accesses, reviews, actor) + CountUnreviewed(accesses, reviews, actor) == Total(accesses, actor)
    ensures CountReviewed(accesses, reviews, actor) <= SumOfCounts(accesses, reviews, actor)
    ensures CountReviewed(accesses, reviews, actor) == SumOfCounts(accesses, reviews, actor) <==> !CoveredTwice(accesses, reviews, actor)
  {
    if accesses == [] {
      NothingCounted(reviews, actor);
    } else {
      var n := |accesses| - 1;
      var a := accesses[n];
      AccessesConserved(accesses[..n], reviews, actor);
      assert accesses == accesses[..n] + [a];
      SumOfAppend(accesses[..n], a, reviews, actor);
      TimesPositive(reviews, a);
      if !Provider(a) {
        OutsiderUncounted(reviews, a);
      }
      TwiceOfAppend(accesses, reviews, actor);
    }
  }

  lemma TwiceOfAppend(accesses: seq<Access>, reviews: seq<Review>, actor: Id)
    requires accesses != []
    ensures
      var n := |accesses| - 1;
      CoveredTwice(accesses, reviews, actor) <==>
        CoveredTwice(accesses[..n], reviews, actor) || (accesses[n].actor == actor && Times(reviews, accesses[n]) > 1)
  {
    var n := |accesses| - 1;
    if CoveredTwice(accesses[..n], reviews, actor) {
      var i :| 0 <= i < n && accesses[..n][i].actor == actor && Times(reviews, accesses[..n][i]) > 1;
      assert accesses[i].actor == actor && Times(reviews, accesses[i]) > 1;
    }
    if CoveredTwice(accesses, reviews, actor) {
      var i :| 0 <= i < |accesses| && accesses[i].actor == actor && Times(reviews, accesses[i]) > 1;
      assert i < n ==> accesses[..n][i] == accesses[i];
    }
  }

  /** A provider access of the Principal that falls in no reviewed period of it. */
  ghost predicate Unseen(a: Access, reviews: seq<Review>, actor: Id) {
    && a.authority != Consumer && a.authority != Reporter && a.actor == actor
    && forall k :: 0 <= k < |reviews| && reviews[k].actor == actor && reviews[k].from <= a.at ==> reviews[k].to <= a.at
  }

  /** What the report counts as unreviewed is the number of those rows. */
  lemma {:induction false} UnreviewedExactly(accesses: seq<Access>, reviews: seq<Review>, actor: Id)
    ensures CountUnreviewed(accesses, reviews, actor) == |Where(accesses, a => Unseen(a, reviews, actor))|
  {
    if accesses != [] {
      UnreviewedExactly(accesses[..|accesses| - 1], reviews, actor);
      WhereOneMore(accesses, a => Unseen(a, reviews, actor));
      UnseenExactlyWhen(accesses[|accesses| - 1], reviews, actor);
    }
  }

  lemma UnseenExactlyWhen(a: Access, reviews: seq<Review>, actor: Id)
    ensures Unseen(a, reviews, actor) <==> Provider(a) && a.actor == actor && !Reviewed(reviews, a)
  {
  }

  // ----- what is overdue

  function Oldest(accesses: seq<Access>, reviews: seq<Review>, actor: Id): Option<int> {
    if accesses == [] then None
    else
      var a := accesses[|accesses| - 1];
      var rest := Oldest(accesses[..|accesses| - 1], reviews, actor);
      if !Provider(a) || a.actor != actor || Reviewed(reviews, a) then rest
      else if rest.Some? && rest.value <= a.at then rest else Some(a.at)
  }

  predicate Overdue(log: Log, actor: Id, now: int) {
    var oldest := Oldest(log.accesses, log.reviews, actor);
    oldest.Some? && now > oldest.value + DUE
  }

  ghost predicate Waits(accesses: seq<Access>, reviews: seq<Review>, actor: Id, before: int) {
    exists i :: 0 <= i < |accesses| && Provider(accesses[i]) && accesses[i].actor == actor && !Reviewed(reviews, accesses[i]) && accesses[i].at < before
  }

  lemma {:induction false} OldestIsFirst(accesses: seq<Access>, reviews: seq<Review>, actor: Id, before: int)
    ensures Waits(accesses, reviews, actor, before) <==>
              Oldest(accesses, reviews, actor).Some? && Oldest(accesses, reviews, actor).value < before
  {
    if accesses != [] {
      var n := |accesses| - 1;
      OldestIsFirst(accesses[..n], reviews, actor, before);
      if Waits(accesses[..n], reviews, actor, before) {
        var i :| 0 <= i < n && Provider(accesses[..n][i]) && accesses[..n][i].actor == actor && !Reviewed(reviews, accesses[..n][i]) && accesses[..n][i].at < before;
        assert Provider(accesses[i]) && !Reviewed(reviews, accesses[i]);
      }
      if Waits(accesses, reviews, actor, before) {
        var i :| 0 <= i < |accesses| && Provider(accesses[i]) && accesses[i].actor == actor && !Reviewed(reviews, accesses[i]) && accesses[i].at < before;
        assert i < n ==> accesses[..n][i] == accesses[i];
      }
    }
  }

  /** A Principal is overdue exactly when some access of it has waited longer than the due time without a review. */
  lemma OverdueExactlyWhen(log: Log, actor: Id, now: int)
    ensures Overdue(log, actor, now) <==>
              exists i :: 0 <= i < |log.accesses| && Unseen(log.accesses[i], log.reviews, actor) && log.accesses[i].at + 7 * 24 * 3600 * SECOND < now
  {
    OldestIsFirst(log.accesses, log.reviews, actor, now - DUE);
    forall i | 0 <= i < |log.accesses|
      ensures Unseen(log.accesses[i], log.reviews, actor) <==>
                Provider(log.accesses[i]) && log.accesses[i].actor == actor && !Reviewed(log.reviews, log.accesses[i])
    {
      UnseenExactlyWhen(log.accesses[i], log.reviews, actor);
    }
  }

  // ----- the service

  /** What a reviewer must state before the attempt is even recorded. */
  ghost predicate Stated(req: Request) {
    && req.actor != NIL && req.from.Some? && req.to.Some? && req.from.value < req.to.value
    && (req.outcome == "appropriate" || req.outcome == "escalated")
  }

  /** Another Principal's period, over by now, with a statement of what was looked at. */
  ghost predicate MayReview(reviewer: Id, req: Request, now: int) {
    Stated(req) && Says(req.statement) && reviewer != req.actor && req.to.value <= now
  }

  ghost predicate RefusedAs(reviewer: Id, req: Request, now: int, error: Error) {
    match error
    case Invalid => !Stated(req) || (Says(req.statement) && reviewer != req.actor && now < req.to.value)
    case ReasonRequired => Stated(req) && !Says(req.statement)
    case SelfReview => Stated(req) && Says(req.statement) && reviewer == req.actor
  }

  /** The review asked for, with the counts its period holds. */
  ghost predicate IsReview(r: Review, accesses: seq<Access>, reviewer: Id, req: Request, now: int) {
    && r.actor == req.actor && Some(r.from) == req.from && Some(r.to) == req.to && r.outcome == req.outcome
    && r.accesses == |InPeriod(accesses, r.actor, r.from, r.to)| && r.emergency == |EmergencyIn(accesses, r.actor, r.from, r.to)|
    && r.reviewedBy == reviewer && r.reviewedAt == now
  }

  /** When the transaction records, why it refuses, and the one row it adds. */
  lemma RecordExactlyWhen(log: Log, reviewer: Id, req: Request, started: int)
    ensures
      var result := RecordTx(log, reviewer, req, started);
      if MayReview(reviewer, req, started) then
        && result.Ok? && |result.value.reviews| == |log.reviews| + 1
        && IsReview(result.value.reviews[|log.reviews|], log.accesses, reviewer, req, started)
        && result.value == log.(reviews := log.reviews + [result.value.reviews[|log.reviews|]])
      else result.Err? && RefusedAs(reviewer, req, started, result.error)
  {
    SaysExactlyWhen(req.statement);
    if req.from.Some? && req.to.Some? {
      CountedExactly(log.accesses, req.actor, req.from.value, req.to.value);
    }
  }

  class AccessReview {
    var log: Log

    ghost predicate Valid()
      reads this
    {
      Inv(log)
    }

    constructor (now: int)
      ensures Valid() && log == Init(now)
    {
      log := Init(now);
    }

    /**
     Records a review of another provider's access. The attempt itself is a provider access,
     recorded and committed first whatever becomes of the review.
     */
    method Records(reviewer: Id, authority: Authority, req: Request) returns (result: Result<Review, Error>)
      requires Valid()
      modifies this
      ensures Valid()
      ensures log == old(log).(accesses := log.accesses, reviews := log.reviews)
      ensures log.accesses == old(log).accesses + if Stated(req) && Says(req.statement) then [Access(reviewer, authority, old(log).now)] else []
      ensures result.Ok? <==> MayReview(reviewer, req, old(log).now)
      ensures result.Ok? ==> log.reviews == old(log).reviews + [result.value] && IsReview(result.value, log.accesses, reviewer, req, old(log).now)
      ensures result.Err? ==> log.reviews == old(log).reviews && RefusedAs(reviewer, req, old(log).now, result.error)
    {
      SaysExactlyWhen(req.statement);
      var refusal := Check(reviewer, req);
      if refusal.Some? && refusal.value != SelfReview {
        return Err(refusal.value);
      }
      var evidence := Access(reviewer, authority, log.now);
      log := log.(accesses := log.accesses + [evidence]);
      if reviewer == req.actor {
        return Err(SelfReview);
      }
      if req.to.value > log.now {
        return Err(Invalid);
      }
      var from, to := req.from.value, req.to.value;
      var review := Review(req.actor, from, to, req.outcome, Count(log.accesses, req.actor, from, to),
                           CountEmergency(log.accesses, req.actor, from, to), reviewer, log.now);
      CountedExactly(log.accesses, req.actor, from, to);
      log := log.(reviews := log.reviews + [review]);
      return Ok(review);
    }
  }
}
