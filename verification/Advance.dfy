/**
 Moving versions past a consumer's after a restore (internal/membership/advance.go), and what it
 does to a consumer that holds versions authority has lost.
 */
module Advance {
  import opened Base
  import opened Projection
  import M = Membership

  datatype Advance = Advance(membership: Id, tenant: Id, above: int)

  predicate Acceptable(a: Advance) {
    a.membership != NIL && a.tenant != NIL && a.above >= 1
  }

  /** The Membership is one of the Tenant the advance names. */
  predicate Found(rows: map<Id, M.Row>, a: Advance) {
    a.membership in rows && rows[a.membership].tenant == a.tenant
  }

  // ----- what a report amounts to

  /** The version a Membership ends at: its own, or one past the largest version the report names for it. */
  function Target(advances: seq<Advance>, m: Id, version: int): int {
    if advances == [] then version
    else
      var rest := Target(advances[..|advances| - 1], m, version);
      var last := advances[|advances| - 1];
      if last.membership == m then Max(rest, last.above + 1) else rest
  }

  function RowsAfter(rows: map<Id, M.Row>, advances: seq<Advance>): map<Id, M.Row> {
    map m | m in rows :: rows[m].(version := Target(advances, m, rows[m].version))
  }

  lemma {:induction false} TargetIsLargest(advances: seq<Advance>, m: Id, version: int)
    ensures
      var t := Target(advances, m, version);
      && version <= t
      && (forall a :: a in advances && a.membership == m ==> a.above < t)
      && (t == version || exists a :: a in advances && a.membership == m && t == a.above + 1)
  {
    if advances == [] {
    } else {
      var rest, last := advances[..|advances| - 1], advances[|advances| - 1];
      TargetIsLargest(rest, m, version);
      assert forall a :: a in advances <==> a in rest || a == last;
    }
  }

  /** Neither the order nor the repetition of a report matters. */
  lemma TargetIgnoresOrder(a: seq<Advance>, b: seq<Advance>, m: Id, version: int)
    requires forall x :: x in a <==> x in b
    ensures Target(a, m, version) == Target(b, m, version)
  {
    TargetIsLargest(a, m, version);
    TargetIsLargest(b, m, version);
  }

  lemma RowsAfterIgnoresOrder(rows: map<Id, M.Row>, a: seq<Advance>, b: seq<Advance>)
    requires forall x :: x in a <==> x in b
    ensures RowsAfter(rows, a) == RowsAfter(rows, b)
  {
    forall m | m in rows ensures Target(a, m, rows[m].version) == Target(b, m, rows[m].version) {
      TargetIgnoresOrder(a, b, m, rows[m].version);
    }
  }

  /** Sent again, the same report changes nothing: every row is already past it. */
  lemma SentAgain(rows: map<Id, M.Row>, advances: seq<Advance>)
    ensures RowsAfter(RowsAfter(rows, advances), advances) == RowsAfter(rows, advances)
    ensures forall a :: a in advances && a.membership in rows ==> RowsAfter(rows, advances)[a.membership].version > a.above
  {
    var once := RowsAfter(rows, advances);
    forall m | m in rows ensures Target(advances, m, once[m].version) == once[m].version {
      TargetIsLargest(advances, m, rows[m].version);
      TargetIsLargest(advances, m, once[m].version);
    }
    forall a | a in advances && a.membership in rows ensures once[a.membership].version > a.above {
      TargetIsLargest(advances, a.membership, rows[a.membership].version);
    }
  }

  /** A report applied in two parts is applied whole. */
  lemma {:induction false} TargetAppend(a: seq<Advance>, b: seq<Advance>, m: Id, version: int)
    ensures Target(a + b, m, version) == Target(b, m, Target(a, m, version))
  {
    if b == [] {
      assert a + b == a;
    } else {
      assert (a + b)[..|a + b| - 1] == a + b[..|b| - 1];
      TargetAppend(a, b[..|b| - 1], m, version);
    }
  }

  lemma RowsAfterAppend(rows: map<Id, M.Row>, a: seq<Advance>, b: seq<Advance>)
    ensures RowsAfter(RowsAfter(rows, a), b) == RowsAfter(rows, a + b)
  {
    forall m | m in rows ensures Target(a + b, m, rows[m].version) == Target(b, m, Target(a, m, rows[m].version)) {
      TargetAppend(a, b, m, rows[m].version);
    }
  }

  // ----- the consumer's side

  /** What a consumer reports of its copy: the Memberships it holds active, and at which version. */
  predicate Reported(view: map<Id, Record<M.Body>>, m: Id) {
    m in view && view[m].body.row.status == M.Active
  }

  /** Advances taken from a consumer's report: any of them, each past the version reported. */
  ghost predicate FromReport(view: map<Id, Record<M.Body>>, advances: seq<Advance>) {
    forall a :: a in advances ==> Reported(view, a.membership) && a.above == view[a.membership].version
  }

  ghost predicate PastAbove(advances: seq<Advance>, e: Record<M.Body>) {
    exists a :: a in advances && a.membership == e.key && e.version == a.above + 1
  }

  /** The events advances publish: each of a Membership they name, one past an Above. */
  ghost predicate AllPastAbove(advances: seq<Advance>, published: seq<Record<M.Body>>) {
    forall e :: e in published ==> PastAbove(advances, e)
  }

  /** A later copy of the same consumer: where it changed, its version rose. */
  ghost predicate MovedOn(view: map<Id, Record<M.Body>>, now: map<Id, Record<M.Body>>) {
    && (forall k :: k in now ==> now[k].key == k)
    && (forall k :: k in view ==> k in now && (now[k] == view[k] || now[k].version > view[k].version))
  }

  /**
   Advances made from a consumer's report never give it access it does not hold: whichever of them
   committed, whatever authority's rows were by then, wherever the consumer's copy has moved since it
   reported, and whatever part of the events reaches it, in whatever order and however often.
   */
  lemma AdvanceNeverWidens(view: map<Id, Record<M.Body>>, now: map<Id, Record<M.Body>>, advances: seq<Advance>,
                           published: seq<Record<M.Body>>, delivered: seq<Record<M.Body>>, m: Id)
    requires FromReport(view, advances) && MovedOn(view, now) && AllPastAbove(advances, published)
    requires forall e :: e in delivered ==> e in published
    ensures Reported(DeliverAll(now, delivered), m) ==> Reported(now, m)
  {
    DeliveryKeepsHighest(now, delivered);
    var after := DeliverAll(now, delivered);
    if m in after && (m !in now || after[m] != now[m]) {
      assert PastAbove(advances, after[m]);
      var a :| a in advances && a.membership == m && after[m].version == a.above + 1;
      assert now[m] == view[m];
    }
  }

  /**
   And they bring it to authority: once authority's version is past the one the consumer reported, a
   consumer sent every event of the history holds authority's row, whether its copy is still the one it
   reported or came from that history since.
   */
  lemma AdvanceConverges(view: map<Id, Record<M.Body>>, now: map<Id, Record<M.Body>>, s: M.Store, delivered: seq<Record<M.Body>>, m: Id)
    requires M.Valid(s) && m in s.rows && (forall k :: k in now ==> now[k].key == k)
    requires m in view && m in now && (now[m] == view[m] || now[m] in s.events)
    requires view[m].version < s.rows[m].version
    requires forall e :: e in delivered <==> e in s.events
    ensures m in DeliverAll(now, delivered) && DeliverAll(now, delivered)[m].body.row == s.rows[m]
  {
    DeliveryKeepsHighest(now, delivered);
    var after := DeliverAll(now, delivered);
    var x := M.CurrentEvent(s, m);
    assert x in delivered;
    assert after[m] in s.events;
    assert after[m].version <= s.rows[m].version by { M.Unfold(s); }
    M.OneEventPerVersion(s, after[m], x);
  }
}
