/**
 The token issuer's check of a client assertion and its memory of the assertions it accepted
 (cmd/organization-devissuer/clientcredentials.go; section 3 of RFC 7523). Expired entries are
 evicted, so the memory is bounded; what eviction forgets, and when that matters, is proved here.
 The signature and the audience are taken as checked, and one authentication is one step.
 */
module ReplayCache {
  import opened Base

  const SKEW := 30 * SECOND
  const HORIZON := 5 * 60 * SECOND

  /** `exp` and `nbf` are in seconds, instants in nanoseconds. */
  datatype Assertion = Assertion(iss: string, sub: string, audience: bool, exp: Option<int>, nbf: Option<int>, jti: string)

  datatype Refusal = WrongClient | WrongAudience | NoExpiry | Expired | TooFarAhead | NotYet | NoIdentifier | Replayed

  /** Everything checked before the memory is consulted. */
  function Check(client: string, a: Assertion, now: int): Option<Refusal> {
    if a.iss != client || a.sub != client then Some(WrongClient)
    else if !a.audience then Some(WrongAudience)
    else if a.exp.None? then Some(NoExpiry)
    else if now > a.exp.value * SECOND + SKEW then Some(Expired)
    else if a.exp.value * SECOND > now + HORIZON then Some(TooFarAhead)
    else if a.nbf.Some? && a.nbf.value * SECOND > now + SKEW then Some(NotYet)
    else if a.jti == "" then Some(NoIdentifier)
    else None
  }

  /** The instant each remembered assertion expires. */
  type Memory = map<string, int>

  function Evict(seen: Memory, now: int): Memory {
    map jti | jti in seen && now <= seen[jti] + SKEW :: seen[jti]
  }

  function Authenticate(client: string, seen: Memory, a: Assertion, now: int): (Memory, Option<Refusal>) {
    var refusal := Check(client, a, now);
    if refusal.Some? || a.exp.None? then (seen, refusal)
    else
      var kept := Evict(seen, now);
      if a.jti in kept then (kept, Some(Replayed)) else (kept[a.jti := a.exp.value * SECOND], None)
  }

  // ----- what one authentication does, over the claims and the clock

  /** The client's own assertion to this issuer, at most 30 seconds expired, at most 5 minutes ahead, begun and identified. */
  ghost predicate Passes(client: string, a: Assertion, now: int) {
    && a.iss == client && a.sub == client && a.audience && a.exp.Some?
    && now <= (a.exp.value + 30) * SECOND && a.exp.value * SECOND <= now + 300 * SECOND
    && (a.nbf.Some? ==> (a.nbf.value - 30) * SECOND <= now)
    && |a.jti| > 0
  }

  /** The memory holds the identifier, and it is not 30 seconds past the expiry held. */
  ghost predicate Fresh(seen: Memory, jti: string, now: int) {
    jti in seen && now <= seen[jti] + 30 * SECOND
  }

  /** Each refusal by what is wrong with the assertion, the first in the order of the checks. */
  ghost predicate RefusedAs(client: string, seen: Memory, a: Assertion, now: int, why: Refusal) {
    var named := a.iss == client && a.sub == client && a.audience;
    var timely := named && a.exp.Some? && now <= (a.exp.value + 30) * SECOND && a.exp.value * SECOND <= now + 300 * SECOND;
    match why
    case WrongClient => a.iss != client || a.sub != client
    case WrongAudience => a.iss == client && a.sub == client && !a.audience
    case NoExpiry => named && a.exp.None?
    case Expired => named && a.exp.Some? && now > (a.exp.value + 30) * SECOND
    case TooFarAhead => named && a.exp.Some? && a.exp.value * SECOND > now + 300 * SECOND
    case NotYet => timely && a.nbf.Some? && (a.nbf.value - 30) * SECOND > now
    case NoIdentifier => timely && (a.nbf.Some? ==> (a.nbf.value - 30) * SECOND <= now) && |a.jti| == 0
    case Replayed => Passes(client, a, now) && Fresh(seen, a.jti, now)
  }

  /** After: what was remembered and has not expired, with the assertion's own expiry if it was accepted. */
  ghost predicate RemembersNow(seen: Memory, a: Assertion, now: int, accepted: bool, after: Memory) {
    && (forall jti :: jti in after <==> Fresh(seen, jti, now) || (accepted && jti == a.jti))
    && (forall jti :: jti in after && Fresh(seen, jti, now) ==> after[jti] == seen[jti])
    && (accepted && a.exp.Some? ==> a.jti in after && after[a.jti] == a.exp.value * SECOND)
  }

  /** An assertion is accepted exactly when it passes and its identifier is not held; a refusal before the memory leaves it alone. */
  lemma AuthenticateExactlyWhen(client: string, seen: Memory, a: Assertion, now: int)
    ensures
      var (after, refusal) := Authenticate(client, seen, a, now);
      && (refusal.None? <==> Passes(client, a, now) && !Fresh(seen, a.jti, now))
      && (refusal.Some? ==> RefusedAs(client, seen, a, now, refusal.value))
      && (if Passes(client, a, now) then RemembersNow(seen, a, now, refusal.None?, after) else after == seen)
    ensures Check(client, a, now).None? <==> Passes(client, a, now)
  {
  }

  // ----- runs, with whatever the clock reads

  datatype Try = Try(a: Assertion, now: int)

  function Seen(client: string, run: seq<Try>): Memory {
    if run == [] then map[]
    else Authenticate(client, Seen(client, run[..|run| - 1]), run[|run| - 1].a, run[|run| - 1].now).0
  }

  predicate Accepted(client: string, run: seq<Try>, k: nat)
    requires k < |run|
  {
    Authenticate(client, Seen(client, run[..k]), run[k].a, run[k].now).1.None?
  }

  /** The k-th try got as far as the memory, and evicted. */
  predicate Reached(client: string, run: seq<Try>, k: nat)
    requires k < |run|
  {
    Check(client, run[k].a, run[k].now).None?
  }

  ghost predicate NonDecreasing(run: seq<Try>) {
    forall i, j :: 0 <= i < j < |run| ==> run[i].now <= run[j].now
  }

  function ExpiryOf(a: Assertion): int {
    if a.exp.Some? then a.exp.value * SECOND else 0
  }

  /** The k-th try is the last acceptance of the identifier so far. */
  ghost predicate Last(client: string, run: seq<Try>, jti: string, k: nat) {
    && k < |run| && Accepted(client, run, k) && run[k].a.jti == jti
    && forall i :: k < i < |run| && Accepted(client, run, i) ==> run[i].a.jti != jti
  }

  /** No try since k read a clock past that acceptance's expiry and skew. */
  ghost predicate Unevicted(client: string, run: seq<Try>, k: nat)
    requires k < |run|
  {
    forall i :: k < i < |run| && Reached(client, run, i) ==> run[i].now <= ExpiryOf(run[k].a) + SKEW
  }

  /** A shorter run's acceptances are the longer run's. */
  lemma PrefixAccepts(client: string, run: seq<Try>, n: nat, k: nat)
    requires k < n <= |run|
    ensures Accepted(client, run[..n], k) == Accepted(client, run, k) && Reached(client, run[..n], k) == Reached(client, run, k)
  {
    assert run[..n][..k] == run[..k];
  }

  lemma LastOfPrefix(client: string, run: seq<Try>, jti: string, k: nat)
    requires run != [] && k < |run| - 1
    ensures Last(client, run, jti, k) <==>
              Last(client, run[..|run| - 1], jti, k) && !(Accepted(client, run, |run| - 1) && run[|run| - 1].a.jti == jti)
    ensures Unevicted(client, run, k) <==>
              Unevicted(client, run[..|run| - 1], k)
              && (Reached(client, run, |run| - 1) ==> run[|run| - 1].now <= ExpiryOf(run[k].a) + SKEW)
  {
    var n := |run| - 1;
    forall i | 0 <= i < n ensures Accepted(client, run[..n], i) == Accepted(client, run, i) && Reached(client, run[..n], i) == Reached(client, run, i) {
      PrefixAccepts(client, run, n, i);
    }
  }

  /** One more try: an identifier is remembered if it is accepted now, or was and is not evicted now. */
  lemma RemembersOneMore(client: string, run: seq<Try>, jti: string)
    requires run != []
    ensures
      var n := |run| - 1;
      var before := Seen(client, run[..n]);
      var accepted := Accepted(client, run, n) && run[n].a.jti == jti;
      && (jti in Seen(client, run) <==> accepted || (jti in before && (Reached(client, run, n) ==> run[n].now <= before[jti] + SKEW)))
      && (jti in Seen(client, run) ==> Seen(client, run)[jti] == if accepted then ExpiryOf(run[n].a) else before[jti])
  {
  }

  /** What the memory holds: each last acceptance whose expiry no later try's clock has passed. */
  lemma {:induction false} Remembers(client: string, run: seq<Try>, jti: string)
    ensures jti in Seen(client, run) <==> exists k: nat :: Last(client, run, jti, k) && Unevicted(client, run, k)
    ensures forall k: nat :: Last(client, run, jti, k) && jti in Seen(client, run) ==> Seen(client, run)[jti] == ExpiryOf(run[k].a)
  {
    if run != [] {
      var n := |run| - 1;
      Remembers(client, run[..n], jti);
      RemembersOneMore(client, run, jti);
      if Accepted(client, run, n) && run[n].a.jti == jti {
        assert Last(client, run, jti, n) && Unevicted(client, run, n);
      } else {
        forall k | 0 <= k < n
          ensures Last(client, run, jti, k) <==> Last(client, run[..n], jti, k)
          ensures Unevicted(client, run, k) <==>
                    Unevicted(client, run[..n], k) && (Reached(client, run, n) ==> run[n].now <= ExpiryOf(run[k].a) + SKEW)
        {
          LastOfPrefix(client, run, jti, k);
        }
      }
    }
  }

  // ----- results

  /**
   When an identifier was accepted before, it is accepted again exactly when its assertion passes the
   checks now and some clock reading since, this one included, was past the expiry remembered.
   */
  lemma AcceptedAgainExactlyWhen(client: string, run: seq<Try>, j: nat, k: nat)
    requires j < k < |run| && Last(client, run[..k], run[k].a.jti, j)
    ensures Accepted(client, run, k) <==>
              && Reached(client, run, k)
              && exists i :: j < i <= k && Reached(client, run, i) && run[i].now > ExpiryOf(run[j].a) + SKEW
  {
    var jti := run[k].a.jti;
    Remembers(client, run[..k], jti);
    forall i | 0 <= i < k ensures Reached(client, run[..k], i) == Reached(client, run, i) {
      PrefixAccepts(client, run, k, i);
    }
    assert run[..k][j] == run[j];
  }

  /** An identifier not accepted before is accepted when its assertion passes, and only then: no other assertion gets in its way. */
  lemma FirstUseExactlyWhen(client: string, run: seq<Try>, k: nat)
    requires k < |run| && forall j :: 0 <= j < k && Accepted(client, run, j) ==> run[j].a.jti != run[k].a.jti
    ensures Accepted(client, run, k) <==> Passes(client, run[k].a, run[k].now)
  {
    Remembers(client, run[..k], run[k].a.jti);
    forall i | 0 <= i < k ensures Accepted(client, run[..k], i) == Accepted(client, run, i) {
      PrefixAccepts(client, run, k, i);
    }
    AuthenticateExactlyWhen(client, Seen(client, run[..k]), run[k].a, run[k].now);
  }

  /** While the clock never goes back, no assertion is accepted twice. */
  lemma NeverAcceptedTwice(client: string, run: seq<Try>, j: nat, k: nat)
    requires NonDecreasing(run) && j < k < |run| && run[j].a == run[k].a && Accepted(client, run, j)
    ensures !Accepted(client, run, k)
  {
    if Accepted(client, run, k) {
      var l := LastBefore(client, run, j, k);
      AcceptedAgainExactlyWhen(client, run, l, k);
      PrefixAccepts(client, run, k, l);
      LatestExpiry(client, run, j, l, k);
    }
  }

  /** The last acceptance of the k-th identifier before k. */
  lemma {:induction false} LastBefore(client: string, run: seq<Try>, j: nat, k: nat) returns (l: nat)
    requires j < k < |run| && run[j].a.jti == run[k].a.jti && Accepted(client, run, j)
    ensures j <= l < k && Last(client, run[..k], run[k].a.jti, l)
  {
    l := k - 1;
    while l > j && !(Accepted(client, run, l) && run[l].a.jti == run[k].a.jti)
      invariant j <= l < k
      invariant forall i :: l < i < k ==> !(Accepted(client, run, i) && run[i].a.jti == run[k].a.jti)
    {
      l := l - 1;
    }
    forall i | 0 <= i < k ensures Accepted(client, run[..k], i) == Accepted(client, run, i) {
      PrefixAccepts(client, run, k, i);
    }
  }

  /** An identifier accepted again later expires later: the clock had passed the expiry before it. */
  lemma {:induction false} LatestExpiry(client: string, run: seq<Try>, j: nat, l: nat, k: nat)
    requires NonDecreasing(run) && j <= l < k < |run| && run[j].a.jti == run[l].a.jti
    requires Accepted(client, run, j) && Accepted(client, run, l)
    ensures ExpiryOf(run[j].a) <= ExpiryOf(run[l].a)
    decreases l - j
  {
    if j < l {
      var m := LastBefore(client, run, j, l);
      PrefixAccepts(client, run, l, m);
      LatestExpiry(client, run, j, m, l);
      AcceptedAgainExactlyWhen(client, run, m, l);
    }
  }

  /** An entry is at most the horizon ahead of the reading that made it. */
  lemma NothingFarAhead(client: string, run: seq<Try>, jti: string)
    requires jti in Seen(client, run)
    ensures exists k: nat :: Last(client, run, jti, k) && Seen(client, run)[jti] == ExpiryOf(run[k].a) <= run[k].now + HORIZON
  {
    Remembers(client, run, jti);
    var k: nat :| Last(client, run, jti, k) && Unevicted(client, run, k);
    assert Last(client, run, jti, k);
  }

  /** So a try that reaches the memory leaves nothing accepted longer ago than the horizon and the skew. */
  lemma MemoryIsBounded(client: string, run: seq<Try>, jti: string)
    requires run != [] && NonDecreasing(run) && Reached(client, run, |run| - 1) && jti in Seen(client, run)
    ensures exists k: nat :: Last(client, run, jti, k) && run[|run| - 1].now <= run[k].now + HORIZON + SKEW
  {
    Remembers(client, run, jti);
    var k: nat :| Last(client, run, jti, k) && Unevicted(client, run, k);
    assert Last(client, run, jti, k);
  }

  // ----- where it differs from a memory that forgets nothing

  function Sample(exp: int): Assertion {
    Assertion("c", "c", true, Some(exp), None, "id")
  }

  /** The identifier of an expired assertion may be used again by a new one, with the clock going forward. */
  lemma ForgetsExpiredIdentifiers()
    ensures
      var run := [Try(Sample(60), 0), Try(Sample(120), 91 * SECOND)];
      NonDecreasing(run) && Accepted("c", run, 0) && Accepted("c", run, 1)
  {
    var run := [Try(Sample(60), 0), Try(Sample(120), 91 * SECOND)];
    assert run[..0] == [] && run[..1] == [run[0]] && run[..1][..0] == [];
  }

  /** A clock that goes back, after another assertion made the memory evict, lets one assertion through twice. */
  lemma ClockMustNotGoBack()
    ensures
      var other := Assertion("c", "c", true, Some(120), None, "other");
      var run := [Try(Sample(60), 0), Try(other, 91 * SECOND), Try(Sample(60), 90 * SECOND)];
      Accepted("c", run, 0) && run[2].a == run[0].a && Accepted("c", run, 2)
  {
    var other := Assertion("c", "c", true, Some(120), None, "other");
    var run := [Try(Sample(60), 0), Try(other, 91 * SECOND), Try(Sample(60), 90 * SECOND)];
    assert run[..0] == [] && run[..1] == [run[0]] && run[..1][..0] == [];
    assert run[..2] == [run[0], run[1]] && run[..2][..1] == run[..1];
    assert Seen("c", run[..1]) == map["id" := 60 * SECOND];
    assert Seen("c", run[..2]) == map["other" := 120 * SECOND];
  }

  // ----- the issuer

  class Issuer {
    const client: string
    var seen: Memory

    /** Every authentication so far. */
    ghost var history: seq<Try>

    ghost predicate Valid()
      reads this
    {
      seen == Seen(client, history)
    }

    constructor (client: string)
      ensures Valid() && this.client == client && history == []
    {
      this.client := client;
      seen, history := map[], [];
    }

    /** Walks the memory in no particular order and deletes what has expired. */
    method Evicts(now: int)
      modifies this`seen
      ensures seen == Evict(old(seen), now)
      ensures forall jti :: jti in seen <==> Fresh(old(seen), jti, now)
      ensures forall jti :: jti in seen ==> seen[jti] == old(seen)[jti]
    {
      var rest := seen.Keys;
      while rest != {}
        invariant rest <= old(seen).Keys
        invariant forall jti :: jti in seen <==> jti in old(seen) && (jti in rest || now <= old(seen)[jti] + SKEW)
        invariant forall jti :: jti in seen ==> seen[jti] == old(seen)[jti]
        decreases |rest|
      {
        var jti :| jti in rest;
        rest := rest - {jti};
        if now > seen[jti] + SKEW {
          seen := seen - {jti};
        }
      }
    }

    /** Checks one assertion and remembers it; while the clock never went back, one accepted before is refused. */
    method Authenticates(a: Assertion, now: int) returns (refusal: Option<Refusal>)
      requires Valid()
      modifies this
      ensures Valid() && history == old(history) + [Try(a, now)]
      ensures refusal.None? <==> Passes(client, a, now) && !Fresh(old(seen), a.jti, now)
      ensures refusal.Some? ==> RefusedAs(client, old(seen), a, now, refusal.value)
      ensures if Passes(client, a, now) then RemembersNow(old(seen), a, now, refusal.None?, seen) else seen == old(seen)
      ensures refusal.None? <==> Accepted(client, history, |history| - 1)
      ensures NonDecreasing(history) && (exists k :: 0 <= k < |history| - 1 && history[k].a == a && Accepted(client, history, k)) ==> refusal.Some?
    {
      AuthenticateExactlyWhen(client, seen, a, now);
      history := history + [Try(a, now)];
      assert history[..|history| - 1] == old(history);
      refusal := Check(client, a, now);
      if refusal.None? && a.exp.Some? {
        Evicts(now);
        if a.jti in seen {
          refusal := Some(Replayed);
        } else {
          seen := seen[a.jti := a.exp.value * SECOND];
        }
      }
      if k :| 0 <= k < |history| - 1 && history[k].a == a && Accepted(client, history, k) {
        if NonDecreasing(history) {
          NeverAcceptedTwice(client, history, k, |history| - 1);
        }
      }
    }
  }
}
