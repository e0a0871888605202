/** Stable ordering of positions by a key, as `sorted` and `ORDER BY` produce it. */
module Ordering {

  datatype Key = Key(major: int, minor: int)

  predicate Less(a: Key, b: Key) {
    a.major < b.major || (a.major == b.major && a.minor < b.minor)
  }

  /** Position `i` goes before position `j`: smaller key first, earlier position on ties. */
  predicate Before(keys: seq<Key>, i: nat, j: nat)
    requires i < |keys| && j < |keys|
  {
    Less(keys[i], keys[j]) || (keys[i] == keys[j] && i < j)
  }

  predicate Positions(keys: seq<Key>, order: seq<nat>) {
    forall k :: 0 <= k < |order| ==> order[k] < |keys|
  }

  ghost predicate Ordered(keys: seq<Key>, order: seq<nat>)
    requires Positions(keys, order)
  {
    forall k, l :: 0 <= k < l < |order| ==> Before(keys, order[k], order[l])
  }

  function Insert(keys: seq<Key>, i: nat, order: seq<nat>): (r: seq<nat>)
    requires i < |keys| && Positions(keys, order)
    ensures Positions(keys, r) && |r| == |order| + 1
  {
    if order == [] || Before(keys, i, order[0]) then [i] + order
    else [order[0]] + Insert(keys, i, order[1..])
  }

  /** The positions from `from` on, in order. */
  function SortFrom(keys: seq<Key>, from: nat): (r: seq<nat>)
    requires from <= |keys|
    ensures Positions(keys, r) && |r| == |keys| - from
    decreases |keys| - from
  {
    if from == |keys| then [] else Insert(keys, from, SortFrom(keys, from + 1))
  }

  function SortPositions(keys: seq<Key>): (r: seq<nat>)
    ensures Positions(keys, r) && |r| == |keys|
  {
    SortFrom(keys, 0)
  }

  lemma {:induction false} InsertHolds(keys: seq<Key>, i: nat, order: seq<nat>)
    requires i < |keys| && Positions(keys, order) && Ordered(keys, order) && i !in order
    ensures Ordered(keys, Insert(keys, i, order))
    ensures forall p :: p in Insert(keys, i, order) <==> p == i || p in order
  {
    if order != [] && !Before(keys, i, order[0]) {
      assert order == [order[0]] + order[1..];
      InsertHolds(keys, i, order[1..]);
      var rest := Insert(keys, i, order[1..]);
      forall k | 0 <= k < |rest| ensures Before(keys, order[0], rest[k]) {
        assert rest[k] in rest;
        assert rest[k] == i || rest[k] in order[1..];
      }
    }
  }

  lemma {:induction false} SortFromHolds(keys: seq<Key>, from: nat)
    requires from <= |keys|
    ensures Ordered(keys, SortFrom(keys, from))
    ensures forall p :: p in SortFrom(keys, from) <==> from <= p < |keys|
    decreases |keys| - from
  {
    if from < |keys| {
      SortFromHolds(keys, from + 1);
      InsertHolds(keys, from, SortFrom(keys, from + 1));
    }
  }

  /** The result lists every position once, by key, ties by position. */
  lemma SortHolds(keys: seq<Key>)
    ensures Ordered(keys, SortPositions(keys))
    ensures forall p: nat :: p in SortPositions(keys) <==> p < |keys|
  {
    SortFromHolds(keys, 0);
  }

  /** Keys that already ascend are left in place. */
  lemma {:induction false} SortedStays(keys: seq<Key>, from: nat)
    requires from <= |keys| && forall i, j :: 0 <= i < j < |keys| ==> !Less(keys[j], keys[i])
    ensures SortFrom(keys, from) == seq(|keys| - from, k => from + k)
    decreases |keys| - from
  {
    if from < |keys| {
      SortedStays(keys, from + 1);
      var rest := SortFrom(keys, from + 1);
      assert rest != [] ==> rest[0] == from + 1;
      assert Insert(keys, from, rest) == [from] + rest;
    }
  }

  /** An entry found at a place of the order comes before every later one. */
  lemma FirstInOrder(keys: seq<Key>, k: nat, p: nat)
    requires k < |keys| && p < |keys|
    requires forall l :: 0 <= l < k ==> SortPositions(keys)[l] != p
    ensures SortPositions(keys)[k] == p || Before(keys, SortPositions(keys)[k], p)
  {
    var r := SortPositions(keys);
    SortHolds(keys);
    assert p in r;
    var l :| 0 <= l < |r| && r[l] == p;
  }
}
