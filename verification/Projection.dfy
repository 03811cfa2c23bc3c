/**
 A consumer of a versioned event stream: it keeps, per key, the state with the highest version it
 was sent, whatever the order and however often each event arrives.
 */
module Projection {
  import opened Base

  /** One published event: the whole state of `key` at `version`. */
  datatype Record<V> = Record(key: Id, version: int, body: V)

  /** An event is applied only when its version is above the one held. */
  function Deliver<V>(view: map<Id, Record<V>>, e: Record<V>): map<Id, Record<V>> {
    if e.key in view && e.version <= view[e.key].version then view else view[e.key := e]
  }

  function DeliverAll<V>(view: map<Id, Record<V>>, delivered: seq<Record<V>>): map<Id, Record<V>> {
    if delivered == [] then view
    else Deliver(DeliverAll(view, delivered[..|delivered| - 1]), delivered[|delivered| - 1])
  }

  /** The log of one producer: versions of a key grow in log order. */
  ghost predicate Increasing<V>(log: seq<Record<V>>) {
    forall i, j :: 0 <= i < j < |log| && log[i].key == log[j].key ==> log[i].version < log[j].version
  }

  /** The last event a key published. */
  function Latest<V>(log: seq<Record<V>>, key: Id): Option<Record<V>> {
    if log == [] then None
    else if log[|log| - 1].key == key then Some(log[|log| - 1])
    else Latest(log[..|log| - 1], key)
  }

  lemma LatestOfAppend<V>(log: seq<Record<V>>, e: Record<V>, key: Id)
    ensures Latest(log + [e], key) == if e.key == key then Some(e) else Latest(log, key)
  {
    assert (log + [e])[..|log|] == log;
  }

  /** Latest is the highest-version event of its key. */
  lemma {:induction false} LatestIsHighest<V>(log: seq<Record<V>>, key: Id)
    requires Increasing(log)
    ensures Latest(log, key).None? ==> forall e :: e in log ==> e.key != key
    ensures Latest(log, key).Some? ==>
              && Latest(log, key).value in log
              && Latest(log, key).value.key == key
              && forall e :: e in log && e.key == key ==>
                   e == Latest(log, key).value || e.version < Latest(log, key).value.version
  {
    if log != [] {
      var rest := log[..|log| - 1];
      LatestIsHighest(rest, key);
      assert forall e :: e in log ==> e in rest || e == log[|log| - 1];
      assert forall e :: e in rest ==> e in log;
      if log[|log| - 1].key == key {
        forall e | e in rest && e.key == key
          ensures e.version < log[|log| - 1].version
        {
          var i :| 0 <= i < |rest| && rest[i] == e;
          assert log[i] == e;
        }
      }
    }
  }

  /** What a delivery leaves in the view, from any view held before it. */
  ghost predicate Holds<V>(before: map<Id, Record<V>>, delivered: seq<Record<V>>, after: map<Id, Record<V>>) {
    && (forall k :: k in after ==>
          && after[k].key == k
          && ((k in before && after[k] == before[k])
              || (after[k] in delivered && (k in before ==> before[k].version < after[k].version))))
    && (forall k :: k in before ==> k in after && before[k].version <= after[k].version)
    && (forall e :: e in delivered ==> e.key in after && e.version <= after[e.key].version)
  }

  /** Order-free meaning of a delivery: every key ends at the highest version seen, and from nowhere else. */
  lemma {:induction false} DeliveryKeepsHighest<V>(before: map<Id, Record<V>>, delivered: seq<Record<V>>)
    requires forall k :: k in before ==> before[k].key == k
    ensures Holds(before, delivered, DeliverAll(before, delivered))
  {
    if delivered != [] {
      var rest := delivered[..|delivered| - 1];
      DeliveryKeepsHighest(before, rest);
      assert forall e :: e in delivered ==> e in rest || e == delivered[|delivered| - 1];
      assert forall e :: e in rest ==> e in delivered;
    }
  }

  /**
   Convergence: a consumer sent every event of the log, in any order and with any duplicates, and
   nothing else, holds exactly the last event of every key.
   */
  lemma Converges<V>(log: seq<Record<V>>, delivered: seq<Record<V>>, key: Id)
    requires Increasing(log)
    requires forall e :: e in delivered <==> e in log
    ensures
      var view := DeliverAll(map[], delivered);
      && (key in view <==> Latest(log, key).Some?)
      && (key in view ==> view[key] == Latest(log, key).value)
  {
    DeliveryKeepsHighest(map[], delivered);
    LatestIsHighest(log, key);
  }
}
