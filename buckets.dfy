/** Reference definitions of what grouping produces, stated over a sequence of
    records and a key function: the distinct keys in order of first
    occurrence, the bucket of each key, the flattened record sequence and the
    group descriptors. The engine's loops are proved to compute exactly these. */
module Buckets {

  datatype Option<T> = None | Some(value: T)

  /** A group descriptor for the list renderer: rows
      [startIndex, startIndex + count) of the flattened records form the group. */
  datatype Group = Group(key: string, name: string, startIndex: nat, count: nat)

  /** What the engine hands to the renderer: the group descriptors, or None
      for an ungrouped list, and the records in display order. */
  datatype GroupedView<R> = GroupedView(groups: Option<seq<Group>>, records: seq<R>)

  predicate Distinct(keys: seq<string>) {
    forall i, j :: 0 <= i < j < |keys| ==> keys[i] != keys[j]
  }

  /** Some record has key `k`. */
  predicate Occurs<R>(records: seq<R>, key: R -> string, k: string) {
    exists p :: 0 <= p < |records| && key(records[p]) == k
  }

  lemma OccursSnoc<R>(records: seq<R>, x: R, key: R -> string)
    ensures forall k :: Occurs(records + [x], key, k) <==> Occurs(records, key, k) || key(x) == k
  {
    var s := records + [x];
    forall k ensures Occurs(s, key, k) <==> Occurs(records, key, k) || key(x) == k {
      if Occurs(records, key, k) {
        var p :| 0 <= p < |records| && key(records[p]) == k;
        assert s[p] == records[p];
      }
      if key(x) == k {
        assert s[|records|] == x;
      }
      if Occurs(s, key, k) && key(x) != k {
        var p :| 0 <= p < |s| && key(s[p]) == k;
        assert p < |records| && s[p] == records[p];
      }
    }
  }

  /** The distinct keys of `records`, each listed where it first occurs. */
  function Discovered<R>(records: seq<R>, key: R -> string): (keys: seq<string>)
    ensures Distinct(keys)
    ensures forall k :: k in keys <==> Occurs(records, key, k)
  {
    if records == [] then []
    else
      var init, x := records[..|records| - 1], records[|records| - 1];
      assert records == init + [x];
      OccursSnoc(init, x, key);
      var prev := Discovered(init, key);
      if key(x) in prev then prev else prev + [key(x)]
  }

  /** The records with key `k`, in input order. */
  function Bucket<R>(records: seq<R>, key: R -> string, k: string): (b: seq<R>)
    ensures |b| <= |records|
    ensures forall i :: 0 <= i < |b| ==> key(b[i]) == k
    ensures b != [] <==> Occurs(records, key, k)
  {
    if records == [] then []
    else
      var init, x := records[..|records| - 1], records[|records| - 1];
      assert records == init + [x];
      OccursSnoc(init, x, key);
      Bucket(init, key, k) + (if key(x) == k then [x] else [])
  }

  /** The buckets of the keys in `order`, one after the other. */
  function Flatten<R>(records: seq<R>, key: R -> string, order: seq<string>): seq<R>
  {
    if order == [] then []
    else Flatten(records, key, order[..|order| - 1]) + Bucket(records, key, order[|order| - 1])
  }

  /** One descriptor per key of `order`: the key, the name of the first
      record with that key, where its bucket starts in the flattened records
      and how many records it holds. */
  function GroupsFor<R>(records: seq<R>, key: R -> string, nameOf: R -> string, order: seq<string>): (groups: seq<Group>)
    requires forall k :: k in order ==> Occurs(records, key, k)
    ensures |groups| == |order|
  {
    if order == [] then []
    else
      var init, k := order[..|order| - 1], order[|order| - 1];
      assert forall k' :: k' in init ==> k' in order;
      var b := Bucket(records, key, k);
      GroupsFor(records, key, nameOf, init) + [Group(k, nameOf(b[0]), |Flatten(records, key, init)|, |b|)]
  }

  /** The buckets in order of first occurrence, one after the other. */
  function Flattened<R>(records: seq<R>, key: R -> string): seq<R>
  {
    Flatten(records, key, Discovered(records, key))
  }

  /** The descriptors of the buckets, in order of first occurrence. */
  function GroupsOf<R>(records: seq<R>, key: R -> string, nameOf: R -> string): seq<Group>
  {
    GroupsFor(records, key, nameOf, Discovered(records, key))
  }

  /** Grouping by a non-empty selection. */
  function GroupBy<R>(records: seq<R>, key: R -> string, nameOf: R -> string): GroupedView<R>
  {
    GroupedView(Some(GroupsOf(records, key, nameOf)), Flattened(records, key))
  }

  /** Sum of the group sizes. */
  function TotalCount(groups: seq<Group>): nat
  {
    if groups == [] then 0 else TotalCount(groups[..|groups| - 1]) + groups[|groups| - 1].count
  }

  /** The position of the first record with key `k`. */
  function FirstIndex<R>(records: seq<R>, key: R -> string, k: string): (p: nat)
    requires Occurs(records, key, k)
    ensures p < |records| && key(records[p]) == k
    ensures forall q :: 0 <= q < p ==> key(records[q]) != k
  {
    if key(records[0]) == k then 0
    else
      var rest := records[1..];
      assert Occurs(rest, key, k) by {
        var p :| 0 <= p < |records| && key(records[p]) == k;
        assert rest[p - 1] == records[p];
      }
      var p := FirstIndex(rest, key, k);
      assert forall q :: 0 < q <= p ==> records[q] == rest[q - 1];
      p + 1
  }

  /** The positions of the records with key `k`, in increasing order. */
  function Positions<R>(records: seq<R>, key: R -> string, k: string): (ps: seq<nat>)
    ensures forall t :: 0 <= t < |ps| ==> ps[t] < |records| && key(records[ps[t]]) == k
    ensures forall s, t :: 0 <= s < t < |ps| ==> ps[s] < ps[t]
    ensures forall p :: 0 <= p < |records| && key(records[p]) == k ==> p in ps
  {
    if records == [] then []
    else
      var n := |records| - 1;
      var prev := Positions(records[..n], key, k);
      assert forall q :: 0 <= q < n ==> records[..n][q] == records[q];
      prev + (if key(records[n]) == k then [n] else [])
  }
}
