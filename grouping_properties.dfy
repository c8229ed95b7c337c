/** What grouping promises: the flattened records are a permutation of the
    input, the groups partition them into contiguous runs, groups come in
    order of first occurrence, each group keeps its records in input order,
    and grouping the output again changes nothing. */
module GroupingProperties {
  import opened Buckets
  import opened SeqLemmas

  // ----- Buckets and discovery, one record at a time -----

  lemma BucketSnoc<R>(records: seq<R>, x: R, key: R -> string, k: string)
    ensures Bucket(records + [x], key, k) == Bucket(records, key, k) + (if key(x) == k then [x] else [])
  {
    assert (records + [x])[..|records|] == records;
  }

  lemma DiscoveredSnoc<R>(records: seq<R>, x: R, key: R -> string)
    ensures Discovered(records + [x], key) ==
      if key(x) in Discovered(records, key) then Discovered(records, key)
      else Discovered(records, key) + [key(x)]
  {
    assert (records + [x])[..|records|] == records;
  }

  lemma {:induction false} BucketAppend<R>(a: seq<R>, b: seq<R>, key: R -> string, k: string)
    ensures Bucket(a + b, key, k) == Bucket(a, key, k) + Bucket(b, key, k)
  {
    if b == [] {
      assert a + b == a;
    } else {
      var init, y := b[..|b| - 1], b[|b| - 1];
      SnocSplit(b);
      AppendAssociative(a, init, [y]);
      BucketAppend(a, init, key, k);
      BucketSnoc(a + init, y, key, k);
      BucketSnoc(init, y, key, k);
      AppendAssociative(Bucket(a, key, k), Bucket(init, key, k), if key(y) == k then [y] else []);
    }
  }

  /** A sequence whose records all have key `k` is its own bucket. */
  lemma {:induction false} BucketOfUniform<R>(s: seq<R>, key: R -> string, k: string)
    requires forall i :: 0 <= i < |s| ==> key(s[i]) == k
    ensures Bucket(s, key, k) == s
  {
    if s != [] {
      var init, y := s[..|s| - 1], s[|s| - 1];
      assert s == init + [y];
      BucketOfUniform(init, key, k);
      BucketSnoc(init, y, key, k);
    }
  }

  lemma FlattenSnoc<R>(records: seq<R>, key: R -> string, order: seq<string>, k: string)
    ensures Flatten(records, key, order + [k]) == Flatten(records, key, order) + Bucket(records, key, k)
  {
    assert (order + [k])[..|order|] == order;
  }

  lemma {:induction false} FlattenAppend<R>(records: seq<R>, key: R -> string, o1: seq<string>, o2: seq<string>)
    ensures Flatten(records, key, o1 + o2) == Flatten(records, key, o1) + Flatten(records, key, o2)
  {
    if o2 == [] {
      assert o1 + o2 == o1;
    } else {
      var init, k := o2[..|o2| - 1], o2[|o2| - 1];
      assert o2 == init + [k];
      assert o1 + o2 == (o1 + init) + [k];
      FlattenAppend(records, key, o1, init);
      FlattenSnoc(records, key, o1 + init, k);
      FlattenSnoc(records, key, init, k);
      var f1, fi, b := Flatten(records, key, o1), Flatten(records, key, init), Bucket(records, key, k);
      AppendAssociative(f1, fi, b);
    }
  }

  lemma DistinctInit(order: seq<string>)
    requires Distinct(order) && order != []
    ensures Distinct(order[..|order| - 1]) && order[|order| - 1] !in order[..|order| - 1]
  {
  }

  // ----- Permutation -----

  /** Multiset bookkeeping for one step of FlattenSnocRecord. */
  lemma MultisetSnocStep<T>(f0: seq<T>, b0: seq<T>, f: seq<T>, b: seq<T>, x: T, inInit: bool, isLast: bool)
    requires multiset(f) == multiset(f0) + (if inInit then multiset{x} else multiset{})
    requires b == b0 + (if isLast then [x] else [])
    ensures multiset(f + b) == multiset(f0 + b0) + (if inInit then multiset{x} else multiset{})
                                                  + (if isLast then multiset{x} else multiset{})
  {
    assert multiset(f + b) == multiset(f) + multiset(b);
    assert multiset(f0 + b0) == multiset(f0) + multiset(b0);
  }

  lemma {:induction false} FlattenSnocRecord<R>(records: seq<R>, x: R, key: R -> string, order: seq<string>)
    requires Distinct(order)
    ensures multiset(Flatten(records + [x], key, order)) ==
      multiset(Flatten(records, key, order)) + (if key(x) in order then multiset{x} else multiset{})
  {
    if order != [] {
      var init, k := order[..|order| - 1], order[|order| - 1];
      var s := records + [x];
      assert Distinct(init) && k !in init by {
        DistinctInit(order);
      }
      FlattenSnocRecord(records, x, key, init);
      BucketSnoc(records, x, key, k);
      MultisetSnocStep(Flatten(records, key, init), Bucket(records, key, k),
                       Flatten(s, key, init), Bucket(s, key, k), x, key(x) in init, key(x) == k);
      assert key(x) in order <==> key(x) in init || key(x) == k;
    }
  }

  lemma FlattenedSnoc<R>(records: seq<R>, x: R, key: R -> string)
    ensures multiset(Flattened(records + [x], key)) == multiset(Flattened(records, key)) + multiset{x}
  {
    var d0 := Discovered(records, key);
    var order := Discovered(records + [x], key);
    DiscoveredSnoc(records, x, key);
    FlattenSnocRecord(records, x, key, order);
    if key(x) !in d0 {
      FlattenSnoc(records, key, d0, key(x));
      assert Bucket(records, key, key(x)) == [];
      AppendEmpty(Flattened(records, key));
    }
  }

  /** Grouping moves records and never adds, drops or duplicates one. */
  lemma {:induction false} FlattenedIsPermutation<R>(records: seq<R>, key: R -> string)
    ensures multiset(Flattened(records, key)) == multiset(records)
    ensures |Flattened(records, key)| == |records|
  {
    if records != [] {
      var init, x := records[..|records| - 1], records[|records| - 1];
      FlattenedIsPermutation(init, key);
      FlattenedSnoc(init, x, key);
      SnocSplit(records);
    }
    MultisetSize(Flattened(records, key));
    MultisetSize(records);
  }

  lemma GroupByIsPermutation<R>(records: seq<R>, key: R -> string, nameOf: R -> string)
    ensures multiset(GroupBy(records, key, nameOf).records) == multiset(records)
    ensures |GroupBy(records, key, nameOf).records| == |records|
  {
    FlattenedIsPermutation(records, key);
  }

  // ----- Partition -----

  /** The i-th descriptor names the i-th key, starts after the buckets of the
      keys before it and is as long as its bucket. */
  lemma {:induction false} GroupsForAt<R>(records: seq<R>, key: R -> string, nameOf: R -> string, order: seq<string>, i: nat)
    requires forall k :: k in order ==> Occurs(records, key, k)
    requires i < |order|
    ensures Bucket(records, key, order[i]) != []
    ensures GroupsFor(records, key, nameOf, order)[i] ==
      Group(order[i], nameOf(Bucket(records, key, order[i])[0]),
            |Flatten(records, key, order[..i])|, |Bucket(records, key, order[i])|)
  {
    assert order[i] in order;
    var init := order[..|order| - 1];
    if i < |order| - 1 {
      assert forall k :: k in init ==> k in order;
      GroupsForAt(records, key, nameOf, init, i);
      assert init[..i] == order[..i];
    } else {
      assert order[..i] == init;
    }
  }

  lemma {:induction false} TotalCountGroupsFor<R>(records: seq<R>, key: R -> string, nameOf: R -> string, order: seq<string>)
    requires forall k :: k in order ==> Occurs(records, key, k)
    ensures TotalCount(GroupsFor(records, key, nameOf, order)) == |Flatten(records, key, order)|
  {
    if order != [] {
      var init := order[..|order| - 1];
      assert forall k :: k in init ==> k in order;
      TotalCountGroupsFor(records, key, nameOf, init);
      var gs := GroupsFor(records, key, nameOf, order);
      assert gs[..|gs| - 1] == GroupsFor(records, key, nameOf, init);
    }
  }

  lemma GroupsForNonEmpty<R>(records: seq<R>, key: R -> string, nameOf: R -> string, order: seq<string>)
    requires forall k :: k in order ==> Occurs(records, key, k)
    ensures forall i :: 0 <= i < |order| ==> GroupsFor(records, key, nameOf, order)[i].count >= 1
  {
    forall i | 0 <= i < |order|
      ensures GroupsFor(records, key, nameOf, order)[i].count >= 1
    {
      GroupsForAt(records, key, nameOf, order, i);
    }
  }

  lemma GroupsForContiguous<R>(records: seq<R>, key: R -> string, nameOf: R -> string, order: seq<string>)
    requires forall k :: k in order ==> Occurs(records, key, k)
    ensures order != [] ==> GroupsFor(records, key, nameOf, order)[0].startIndex == 0
    ensures forall i :: 0 <= i < |order| - 1 ==>
      GroupsFor(records, key, nameOf, order)[i + 1].startIndex ==
        GroupsFor(records, key, nameOf, order)[i].startIndex + GroupsFor(records, key, nameOf, order)[i].count
  {
    if order != [] {
      GroupsForAt(records, key, nameOf, order, 0);
      assert order[..0] == [];
    }
    forall i | 0 <= i < |order| - 1
      ensures GroupsFor(records, key, nameOf, order)[i + 1].startIndex ==
        GroupsFor(records, key, nameOf, order)[i].startIndex + GroupsFor(records, key, nameOf, order)[i].count
    {
      GroupsForNext(records, key, nameOf, order, i);
    }
  }

  lemma GroupsForNext<R>(records: seq<R>, key: R -> string, nameOf: R -> string, order: seq<string>, i: nat)
    requires forall k :: k in order ==> Occurs(records, key, k)
    requires i + 1 < |order|
    ensures GroupsFor(records, key, nameOf, order)[i + 1].startIndex ==
      GroupsFor(records, key, nameOf, order)[i].startIndex + GroupsFor(records, key, nameOf, order)[i].count
  {
    GroupsForAt(records, key, nameOf, order, i);
    GroupsForAt(records, key, nameOf, order, i + 1);
    SplitAround(order, i);
    FlattenSnoc(records, key, order[..i], order[i]);
  }

  /** The groups tile the output: the first starts at 0, each later one
      starts where the previous ends, none is empty, and the counts add up
      to the number of records. */
  lemma GroupsPartitionRecords<R>(records: seq<R>, key: R -> string, nameOf: R -> string)
    ensures var gs := GroupsOf(records, key, nameOf);
      |records| > 0 ==> |gs| > 0 && gs[0].startIndex == 0
    ensures var gs := GroupsOf(records, key, nameOf);
      forall i :: 0 <= i < |gs| ==> gs[i].count >= 1
    ensures var gs := GroupsOf(records, key, nameOf);
      forall i :: 0 <= i < |gs| - 1 ==> gs[i + 1].startIndex == gs[i].startIndex + gs[i].count
    ensures TotalCount(GroupsOf(records, key, nameOf)) == |Flattened(records, key)| == |records|
  {
    var order := Discovered(records, key);
    if |records| > 0 {
      assert key(records[0]) in order;
    }
    GroupsForNonEmpty(records, key, nameOf, order);
    GroupsForContiguous(records, key, nameOf, order);
    TotalCountGroupsFor(records, key, nameOf, order);
    FlattenedIsPermutation(records, key);
  }

  /** The flattened output is the buckets laid end to end. */
  lemma FlattenSplit<R>(records: seq<R>, key: R -> string, order: seq<string>, i: nat)
    requires i < |order|
    ensures Flatten(records, key, order) ==
      Flatten(records, key, order[..i]) + Bucket(records, key, order[i]) + Flatten(records, key, order[i + 1..])
  {
    var front, k, back := order[..i], order[i], order[i + 1..];
    SplitAround(order, i);
    FlattenAppend(records, key, front + [k], back);
    FlattenSnoc(records, key, front, k);
  }

  /** The group at position i covers exactly its bucket in the output. */
  lemma GroupCoversBucket<R>(records: seq<R>, key: R -> string, nameOf: R -> string, order: seq<string>, i: nat)
    requires forall k :: k in order ==> Occurs(records, key, k)
    requires i < |order|
    ensures GroupsFor(records, key, nameOf, order)[i].key == order[i]
    ensures GroupsFor(records, key, nameOf, order)[i].startIndex + GroupsFor(records, key, nameOf, order)[i].count
              <= |Flatten(records, key, order)|
    ensures Flatten(records, key, order)[GroupsFor(records, key, nameOf, order)[i].startIndex ..
                                         GroupsFor(records, key, nameOf, order)[i].startIndex + GroupsFor(records, key, nameOf, order)[i].count]
              == Bucket(records, key, order[i])
  {
    GroupsForAt(records, key, nameOf, order, i);
    FlattenSplit(records, key, order, i);
    SliceMiddle(Flatten(records, key, order[..i]), Bucket(records, key, order[i]), Flatten(records, key, order[i + 1..]));
  }

  /** Rows [startIndex, startIndex + count) of the output are exactly the
      bucket of the group's key. */
  lemma GroupsCoverTheirBuckets<R>(records: seq<R>, key: R -> string, nameOf: R -> string)
    ensures forall i :: 0 <= i < |GroupsOf(records, key, nameOf)| ==>
      var g := GroupsOf(records, key, nameOf)[i];
      g.startIndex + g.count <= |Flattened(records, key)| &&
      Flattened(records, key)[g.startIndex .. g.startIndex + g.count] == Bucket(records, key, g.key)
  {
    forall i | 0 <= i < |GroupsOf(records, key, nameOf)|
      ensures GroupsOf(records, key, nameOf)[i].startIndex + GroupsOf(records, key, nameOf)[i].count
                <= |Flattened(records, key)|
      ensures Flattened(records, key)[GroupsOf(records, key, nameOf)[i].startIndex ..
                                      GroupsOf(records, key, nameOf)[i].startIndex + GroupsOf(records, key, nameOf)[i].count]
                == Bucket(records, key, GroupsOf(records, key, nameOf)[i].key)
    {
      GroupCoversBucket(records, key, nameOf, Discovered(records, key), i);
    }
  }

  /** Every row a group covers carries the group's key. */
  lemma GroupRowsCarryGroupKey<R>(records: seq<R>, key: R -> string, nameOf: R -> string)
    ensures var gs, out := GroupsOf(records, key, nameOf), Flattened(records, key);
      forall i, p :: 0 <= i < |gs| && gs[i].startIndex <= p < gs[i].startIndex + gs[i].count ==>
        p < |out| && key(out[p]) == gs[i].key
  {
    var gs := GroupsOf(records, key, nameOf);
    var out := Flattened(records, key);
    GroupsCoverTheirBuckets(records, key, nameOf);
    forall i, p | 0 <= i < |gs| && gs[i].startIndex <= p < gs[i].startIndex + gs[i].count
      ensures p < |out| && key(out[p]) == gs[i].key
    {
      SliceIndex(out, gs[i].startIndex, gs[i].startIndex + gs[i].count, Bucket(records, key, gs[i].key), p);
    }
  }

  // ----- First-occurrence order and group names -----

  lemma FirstIndexSnoc<R>(records: seq<R>, x: R, key: R -> string, k: string)
    requires Occurs(records, key, k)
    ensures Occurs(records + [x], key, k)
    ensures FirstIndex(records + [x], key, k) == FirstIndex(records, key, k)
  {
    OccursSnoc(records, x, key);
    var s := records + [x];
    var p := FirstIndex(records, key, k);
    var p' := FirstIndex(s, key, k);
    assert s[p] == records[p];
    assert p' <= p;
    assert s[p'] == records[p'];
  }

  lemma FirstIndexFresh<R>(records: seq<R>, x: R, key: R -> string)
    requires !Occurs(records, key, key(x))
    ensures Occurs(records + [x], key, key(x))
    ensures FirstIndex(records + [x], key, key(x)) == |records|
  {
    OccursSnoc(records, x, key);
    var s := records + [x];
    assert s[|records|] == x;
  }

  /** Keys listed in first-occurrence order: the first occurrences of the
      listed keys increase along the list. */
  ghost predicate InFirstOccurrenceOrder<R>(records: seq<R>, key: R -> string, keys: seq<string>)
    requires forall k :: k in keys ==> Occurs(records, key, k)
  {
    forall i, j :: 0 <= i < j < |keys| ==> FirstIndex(records, key, keys[i]) < FirstIndex(records, key, keys[j])
  }

  lemma FirstIndexKeptOnSnoc<R>(records: seq<R>, x: R, key: R -> string)
    ensures forall k :: k in Discovered(records, key) ==>
      Occurs(records + [x], key, k) && FirstIndex(records + [x], key, k) == FirstIndex(records, key, k)
  {
    forall k | k in Discovered(records, key)
      ensures Occurs(records + [x], key, k) && FirstIndex(records + [x], key, k) == FirstIndex(records, key, k)
    {
      FirstIndexSnoc(records, x, key, k);
    }
  }

  lemma FirstOccurrenceOrderSnocOld<R>(records: seq<R>, x: R, key: R -> string)
    requires key(x) in Discovered(records, key)
    requires InFirstOccurrenceOrder(records, key, Discovered(records, key))
    ensures InFirstOccurrenceOrder(records + [x], key, Discovered(records + [x], key))
  {
    DiscoveredSnoc(records, x, key);
    FirstIndexKeptOnSnoc(records, x, key);
  }

  /** Two keys keep the order of their first occurrences when a record is
      appended; a key first seen in that record comes after both. */
  lemma FirstIndexPairSnoc<R>(records: seq<R>, x: R, key: R -> string, a: string, b: string)
    requires Occurs(records, key, a)
    requires (Occurs(records, key, b) && FirstIndex(records, key, a) < FirstIndex(records, key, b))
          || (b == key(x) && !Occurs(records, key, b))
    ensures Occurs(records + [x], key, a) && Occurs(records + [x], key, b)
    ensures FirstIndex(records + [x], key, a) < FirstIndex(records + [x], key, b)
  {
    FirstIndexSnoc(records, x, key, a);
    if Occurs(records, key, b) {
      FirstIndexSnoc(records, x, key, b);
    } else {
      FirstIndexFresh(records, x, key);
    }
  }

  lemma FirstOccurrenceOrderSnocNew<R>(records: seq<R>, x: R, key: R -> string)
    requires key(x) !in Discovered(records, key)
    requires InFirstOccurrenceOrder(records, key, Discovered(records, key))
    ensures InFirstOccurrenceOrder(records + [x], key, Discovered(records + [x], key))
  {
    var d0 := Discovered(records, key);
    var d := d0 + [key(x)];
    var s := records + [x];
    DiscoveredSnoc(records, x, key);
    forall i, j | 0 <= i < j < |d|
      ensures FirstIndex(s, key, d[i]) < FirstIndex(s, key, d[j])
    {
      assert d[i] == d0[i] && d0[i] in d0;
      if j < |d0| {
        assert d[j] == d0[j] && d0[j] in d0;
      }
      FirstIndexPairSnoc(records, x, key, d[i], d[j]);
    }
  }

  /** Distinct keys are listed in the order of their first occurrences. */
  lemma {:induction false} DiscoveredInFirstOccurrenceOrder<R>(records: seq<R>, key: R -> string)
    ensures forall i, j :: 0 <= i < j < |Discovered(records, key)| ==>
      FirstIndex(records, key, Discovered(records, key)[i]) < FirstIndex(records, key, Discovered(records, key)[j])
  {
    if records != [] {
      var init, x := records[..|records| - 1], records[|records| - 1];
      DiscoveredInFirstOccurrenceOrder(init, key);
      if key(x) in Discovered(init, key) {
        FirstOccurrenceOrderSnocOld(init, x, key);
      } else {
        FirstOccurrenceOrderSnocNew(init, x, key);
      }
      assert records == init + [x];
    }
  }

  /** The first record of a bucket is the first record with that key. */
  lemma {:induction false} BucketHeadIsFirst<R>(records: seq<R>, key: R -> string, k: string)
    requires Occurs(records, key, k)
    ensures Bucket(records, key, k)[0] == records[FirstIndex(records, key, k)]
  {
    var init, x := records[..|records| - 1], records[|records| - 1];
    assert records == init + [x];
    BucketSnoc(init, x, key, k);
    OccursSnoc(init, x, key);
    if Occurs(init, key, k) {
      BucketHeadIsFirst(init, key, k);
      FirstIndexSnoc(init, x, key, k);
    } else {
      FirstIndexFresh(init, x, key);
    }
  }

  /** Groups follow the first occurrence of their keys, no two share a key,
      every key of the input has a group, and each group is named after the
      first record that carries its key. */
  lemma GroupsInFirstOccurrenceOrder<R>(records: seq<R>, key: R -> string, nameOf: R -> string)
    ensures var gs := GroupsOf(records, key, nameOf);
      forall i :: 0 <= i < |gs| ==> Occurs(records, key, gs[i].key)
    ensures var gs := GroupsOf(records, key, nameOf);
      forall i, j :: 0 <= i < j < |gs| ==> FirstIndex(records, key, gs[i].key) < FirstIndex(records, key, gs[j].key)
    ensures var gs := GroupsOf(records, key, nameOf);
      forall i, j :: 0 <= i < j < |gs| ==> gs[i].key != gs[j].key
    ensures var gs := GroupsOf(records, key, nameOf);
      forall p :: 0 <= p < |records| ==> exists i :: 0 <= i < |gs| && gs[i].key == key(records[p])
    ensures var gs := GroupsOf(records, key, nameOf);
      forall i :: 0 <= i < |gs| ==> gs[i].name == nameOf(records[FirstIndex(records, key, gs[i].key)])
  {
    var order := Discovered(records, key);
    var gs := GroupsOf(records, key, nameOf);
    forall i | 0 <= i < |gs|
      ensures gs[i].key == order[i] && Occurs(records, key, gs[i].key)
      ensures gs[i].name == nameOf(records[FirstIndex(records, key, gs[i].key)])
    {
      GroupsForAt(records, key, nameOf, order, i);
      assert order[i] in order;
      BucketHeadIsFirst(records, key, order[i]);
    }
    DiscoveredInFirstOccurrenceOrder(records, key);
    forall p | 0 <= p < |records|
      ensures exists i :: 0 <= i < |gs| && gs[i].key == key(records[p])
    {
      assert Occurs(records, key, key(records[p]));
      var i :| 0 <= i < |order| && order[i] == key(records[p]);
      assert gs[i].key == key(records[p]);
    }
  }

  // ----- Order inside a group -----

  /** A bucket lists the records with its key at their increasing input
      positions: records inside a group keep their relative input order. */
  lemma {:induction false} BucketFollowsInputOrder<R>(records: seq<R>, key: R -> string, k: string)
    ensures |Bucket(records, key, k)| == |Positions(records, key, k)|
    ensures forall t :: 0 <= t < |Bucket(records, key, k)| ==>
      Bucket(records, key, k)[t] == records[Positions(records, key, k)[t]]
  {
    if records != [] {
      var n := |records| - 1;
      var init, x := records[..n], records[n];
      BucketFollowsInputOrder(init, key, k);
      var b0, ps0 := Bucket(init, key, k), Positions(init, key, k);
      var b, ps := Bucket(records, key, k), Positions(records, key, k);
      assert b == b0 + (if key(x) == k then [x] else []);
      assert ps == ps0 + (if key(x) == k then [n] else []);
      forall t | 0 <= t < |b|
        ensures b[t] == records[ps[t]]
      {
        if t < |b0| {
          assert b[t] == b0[t] && ps[t] == ps0[t];
          assert init[ps0[t]] == records[ps0[t]];
        }
      }
    }
  }

  // ----- Regrouping the output -----

  lemma {:induction false} BucketOfFlatten<R>(records: seq<R>, key: R -> string, order: seq<string>, k: string)
    requires Distinct(order)
    ensures Bucket(Flatten(records, key, order), key, k) == if k in order then Bucket(records, key, k) else []
  {
    if order != [] {
      var init, k' := order[..|order| - 1], order[|order| - 1];
      DistinctInit(order);
      BucketOfFlatten(records, key, init, k);
      var b := Bucket(records, key, k');
      BucketAppend(Flatten(records, key, init), b, key, k);
      if k == k' {
        BucketOfUniform(b, key, k);
      } else {
        assert !Occurs(b, key, k);
      }
    }
  }

  lemma {:induction false} DiscoveredAppendUniform<R>(a: seq<R>, b: seq<R>, key: R -> string, k: string)
    requires b != [] && forall i :: 0 <= i < |b| ==> key(b[i]) == k
    requires k !in Discovered(a, key)
    ensures Discovered(a + b, key) == Discovered(a, key) + [k]
  {
    var init, y := b[..|b| - 1], b[|b| - 1];
    assert a + b == (a + init) + [y];
    DiscoveredSnoc(a + init, y, key);
    if init == [] {
      assert a + init == a;
    } else {
      DiscoveredAppendUniform(a, init, key, k);
    }
  }

  lemma DistinctOccurringInit<R>(records: seq<R>, key: R -> string, order: seq<string>)
    requires order != [] && Distinct(order)
    requires forall k :: k in order ==> Occurs(records, key, k)
    ensures Distinct(order[..|order| - 1]) && order[|order| - 1] !in order[..|order| - 1]
    ensures Bucket(records, key, order[|order| - 1]) != []
    ensures forall k :: k in order[..|order| - 1] ==> Occurs(records, key, k)
  {
    DistinctInit(order);
    assert forall k :: k in order[..|order| - 1] ==> k in order;
    assert order[|order| - 1] in order;
  }

  lemma DiscoveredOfFlattenStep<R>(records: seq<R>, key: R -> string, init: seq<string>, k: string)
    requires Discovered(Flatten(records, key, init), key) == init
    requires k !in init
    requires Bucket(records, key, k) != []
    ensures Discovered(Flatten(records, key, init + [k]), key) == init + [k]
  {
    var o := init + [k];
    assert o[..|o| - 1] == init;
    DiscoveredAppendUniform(Flatten(records, key, init), Bucket(records, key, k), key, k);
  }

  lemma {:induction false} DiscoveredOfFlatten<R>(records: seq<R>, key: R -> string, order: seq<string>)
    requires Distinct(order)
    requires forall k :: k in order ==> Occurs(records, key, k)
    ensures Discovered(Flatten(records, key, order), key) == order
  {
    if order != [] {
      var init, k := order[..|order| - 1], order[|order| - 1];
      DistinctOccurringInit(records, key, order);
      DiscoveredOfFlatten(records, key, init);
      DiscoveredOfFlattenStep(records, key, init, k);
      assert init + [k] == order;
    }
  }

  /** Two inputs with the same bucket for every key of `order` give the same
      flattened records and the same descriptors. */
  lemma {:induction false} SameBucketsSameGroups<R>(a: seq<R>, b: seq<R>, key: R -> string, nameOf: R -> string, order: seq<string>)
    requires forall k :: k in order ==> Occurs(a, key, k) && Bucket(a, key, k) == Bucket(b, key, k)
    ensures forall k :: k in order ==> Occurs(b, key, k)
    ensures Flatten(a, key, order) == Flatten(b, key, order)
    ensures GroupsFor(a, key, nameOf, order) == GroupsFor(b, key, nameOf, order)
  {
    if order != [] {
      var init := order[..|order| - 1];
      assert forall k :: k in init ==> k in order;
      SameBucketsSameGroups(a, b, key, nameOf, init);
    }
  }

  /** Grouping the grouped output again by the same key gives the same
      groups and the same record sequence. */
  lemma RegroupingIsStable<R>(records: seq<R>, key: R -> string, nameOf: R -> string)
    ensures GroupBy(GroupBy(records, key, nameOf).records, key, nameOf) == GroupBy(records, key, nameOf)
  {
    var order := Discovered(records, key);
    var out := Flattened(records, key);
    DiscoveredOfFlatten(records, key, order);
    forall k | k in order
      ensures Occurs(out, key, k) && Bucket(out, key, k) == Bucket(records, key, k)
    {
      BucketOfFlatten(records, key, order, k);
    }
    SameBucketsSameGroups(out, records, key, nameOf, order);
  }
}
