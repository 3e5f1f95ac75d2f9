/**
 * Lists of records identified by a string key: lookup (`find`, `findIndex`),
 * replace-or-append (`upsert`) and removal by key (`filter`). The storage
 * gateway uses them for products keyed by reference and projects keyed by id;
 * the task editor uses them for tasks keyed by id.
 */
module KeyedList {
  import opened Base
  import opened Seqs

  /** `xs.findIndex(x => key(x) === k)`: the first position with key `k`, or -1. */
  function IndexOfKey<T>(xs: seq<T>, key: T -> string, k: string): (i: int)
    ensures -1 <= i < |xs|
    ensures i >= 0 ==> key(xs[i]) == k
    ensures forall j :: 0 <= j < |xs| && (i < 0 || j < i) ==> key(xs[j]) != k
  {
    if xs == [] then -1
    else if key(xs[0]) == k then 0
    else
      var i := IndexOfKey(xs[1..], key, k);
      if i < 0 then -1 else i + 1
  }

  /** `xs.find(x => key(x) === k)`: the first element with key `k`, if any. */
  function FindByKey<T>(xs: seq<T>, key: T -> string, k: string): (r: Option<T>)
    ensures r.None? <==> forall i :: 0 <= i < |xs| ==> key(xs[i]) != k
    ensures r.Some? ==> exists i :: && 0 <= i < |xs| && xs[i] == r.value && key(xs[i]) == k
                                    && forall j :: 0 <= j < i ==> key(xs[j]) != k
  {
    var i := IndexOfKey(xs, key, k);
    if i < 0 then None else Some(xs[i])
  }

  /** No two elements share a key. */
  ghost predicate UniqueKeys<T>(xs: seq<T>, key: T -> string)
  {
    forall i, j :: 0 <= i < j < |xs| ==> key(xs[i]) != key(xs[j])
  }

  /**
   * Replace the first element whose key is `key(x)` by `x`, or append `x` when
   * there is none.
   */
  function Upsert<T>(xs: seq<T>, key: T -> string, x: T): (ys: seq<T>)
    ensures var i := IndexOfKey(xs, key, key(x));
      && (i >= 0 ==> |ys| == |xs| && ys[i] == x)
      && (i < 0 ==> |ys| == |xs| + 1 && ys[|xs|] == x)
    ensures forall j :: 0 <= j < |xs| && j != IndexOfKey(xs, key, key(x)) ==> ys[j] == xs[j]
  {
    var i := IndexOfKey(xs, key, key(x));
    if i > -1 then xs[i := x] else xs + [x]
  }

  /** The predicates "has key `k`" and "has another key". */
  function KeyIs<T>(key: T -> string, k: string): T -> bool
  {
    x => key(x) == k
  }

  function KeyIsNot<T>(key: T -> string, k: string): T -> bool
  {
    x => key(x) != k
  }

  /** `xs.filter(x => key(x) !== k)`. */
  function RemoveKey<T>(xs: seq<T>, key: T -> string, k: string): (ys: seq<T>)
    ensures |ys| <= |xs|
    ensures forall i :: 0 <= i < |ys| ==> key(ys[i]) != k
  {
    Filter(xs, KeyIsNot(key, k))
  }

  /** After an upsert, looking the key up gives the element that was saved. */
  lemma UpsertThenFind<T>(xs: seq<T>, key: T -> string, x: T)
    ensures FindByKey(Upsert(xs, key, x), key, key(x)) == Some(x)
  {
    var ys := Upsert(xs, key, x);
    var i := IndexOfKey(xs, key, key(x));
    var at := if i >= 0 then i else |xs|;
    assert ys[at] == x;
    assert forall j :: 0 <= j < at ==> ys[j] == xs[j];
    assert IndexOfKey(ys, key, key(x)) == at;
  }

  /** Saving the same element twice is the same as saving it once. */
  lemma UpsertIdempotent<T>(xs: seq<T>, key: T -> string, x: T)
    ensures Upsert(Upsert(xs, key, x), key, x) == Upsert(xs, key, x)
  {
    var ys := Upsert(xs, key, x);
    var i := IndexOfKey(xs, key, key(x));
    var at := if i >= 0 then i else |xs|;
    assert ys[at] == x;
    assert forall j :: 0 <= j < at ==> ys[j] == xs[j];
    assert IndexOfKey(ys, key, key(x)) == at;
    assert ys[at := x] == ys;
  }

  /** Upserting into a list with unique keys keeps the keys unique. */
  lemma UpsertKeepsUnique<T>(xs: seq<T>, key: T -> string, x: T)
    requires UniqueKeys(xs, key)
    ensures UniqueKeys(Upsert(xs, key, x), key)
  {
    var ys := Upsert(xs, key, x);
    var i := IndexOfKey(xs, key, key(x));
    if i >= 0 {
      assert forall j :: 0 <= j < |ys| ==> key(ys[j]) == key(xs[j]);
    } else {
      assert forall j :: 0 <= j < |xs| ==> ys[j] == xs[j];
    }
  }

  /** Removal keeps exactly the elements with a different key. */
  lemma RemoveKeyMembership<T>(xs: seq<T>, key: T -> string, k: string, y: T)
    ensures y in RemoveKey(xs, key, k) <==> y in xs && key(y) != k
  {
    FilterMembership(xs, KeyIsNot(key, k), y);
  }

  /** Removal keeps the order of what remains. */
  lemma RemoveKeyIsSubsequence<T>(xs: seq<T>, key: T -> string, k: string)
    ensures IsSubsequence(RemoveKey(xs, key, k), xs)
  {
    FilterIsSubsequence(xs, KeyIsNot(key, k));
  }

  /** Removal drops exactly the elements with the key: one fewer element for each of them. */
  lemma RemoveKeyCount<T>(xs: seq<T>, key: T -> string, k: string)
    ensures |RemoveKey(xs, key, k)| == |xs| - Count(xs, KeyIs(key, k))
  {
    FilterLength(xs, KeyIsNot(key, k));
    CountPartition(xs, KeyIsNot(key, k), KeyIs(key, k));
  }

  /** Removing a key that no element has changes nothing. */
  lemma RemoveAbsentKey<T>(xs: seq<T>, key: T -> string, k: string)
    requires forall i :: 0 <= i < |xs| ==> key(xs[i]) != k
    ensures RemoveKey(xs, key, k) == xs
  {
    FilterKeepsAll(xs, KeyIsNot(key, k));
  }

  /** Removal keeps keys unique. */
  lemma {:induction false} RemoveKeepsUnique<T>(xs: seq<T>, key: T -> string, k: string)
    requires UniqueKeys(xs, key)
    ensures UniqueKeys(RemoveKey(xs, key, k), key)
  {
    if xs != [] {
      RemoveKeepsUnique(xs[1..], key, k);
      var rest := RemoveKey(xs[1..], key, k);
      if key(xs[0]) != k {
        assert RemoveKey(xs, key, k) == [xs[0]] + rest;
        forall j | 0 <= j < |rest| ensures key(rest[j]) != key(xs[0]) {
          RemoveKeyMembership(xs[1..], key, k, rest[j]);
          var m :| 0 <= m < |xs[1..]| && xs[1..][m] == rest[j];
          assert xs[m + 1] == rest[j];
        }
      } else {
        assert RemoveKey(xs, key, k) == rest;
      }
    }
  }
}
