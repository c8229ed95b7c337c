/** The grouping engine of the list component: it reads the dataset's records
    in their sorted order and, when grouping columns are selected, buckets
    them by composite key and lays the buckets out one after the other. */
module GroupingEngine {
  import opened Selection
  import opened GroupKey
  import opened Buckets
  import opened GroupingProperties

  /** The dataset as the hosting framework supplies it: record ids in display
      order and a lookup from id to record. */
  datatype Dataset<R> = Dataset(sortedRecordIds: seq<string>, records: map<string, R>)

  /** One entry of the key-to-bucket object: the name of the record that
      created it and the records collected so far. */
  datatype BucketEntry<R> = BucketEntry(name: string, records: seq<R>)

  /** Every sorted id can be looked up. */
  predicate Resolvable<R>(dataset: Dataset<R>) {
    forall i :: 0 <= i < |dataset.sortedRecordIds| ==> dataset.sortedRecordIds[i] in dataset.records
  }

  /** The records in the dataset's sorted order. */
  function SortedRecords<R>(dataset: Dataset<R>): (records: seq<R>)
    requires Resolvable(dataset)
    ensures |records| == |dataset.sortedRecordIds|
    ensures forall i :: 0 <= i < |records| ==> records[i] == dataset.records[dataset.sortedRecordIds[i]]
  {
    seq(|dataset.sortedRecordIds|, i requires 0 <= i < |dataset.sortedRecordIds| && Resolvable(dataset) =>
      dataset.records[dataset.sortedRecordIds[i]])
  }

  /** The composite key of a record under the selection `columns`. */
  function KeyFunction<R>(reader: RecordReader<R>, columns: seq<Column>): R -> string
  {
    r => KeyOf(reader, r, columns)
  }

  /** The group label of a record under the selection `columns`. */
  function NameFunction<R>(reader: RecordReader<R>, columns: seq<Column>): R -> string
  {
    r => NameOf(reader, r, columns)
  }

  /** The contents of the key-to-bucket object after the scan: its keys in
      insertion order, and for each key its bucket and the name of the record
      that created it. */
  ghost predicate BucketsCollected<R>(records: seq<R>, key: R -> string, nameOf: R -> string,
                                keyOrder: seq<string>, groupRecordsMap: map<string, BucketEntry<R>>)
  {
    && keyOrder == Discovered(records, key)
    && (forall k :: k in groupRecordsMap <==> k in keyOrder)
    && (forall k :: k in groupRecordsMap ==>
          groupRecordsMap[k].records == Bucket(records, key, k) &&
          groupRecordsMap[k].name == nameOf(groupRecordsMap[k].records[0]))
  }

  /** A record whose key already has a bucket is appended to that bucket. */
  lemma CollectIntoExisting<R>(scanned: seq<R>, record: R, key: R -> string, nameOf: R -> string,
                               keyOrder: seq<string>, groupRecordsMap: map<string, BucketEntry<R>>)
    requires BucketsCollected(scanned, key, nameOf, keyOrder, groupRecordsMap)
    requires key(record) in groupRecordsMap
    ensures BucketsCollected(scanned + [record], key, nameOf, keyOrder,
      groupRecordsMap[key(record) := BucketEntry(groupRecordsMap[key(record)].name,
                                                 groupRecordsMap[key(record)].records + [record])])
  {
    var s := scanned + [record];
    var x := key(record);
    var m := groupRecordsMap[x := BucketEntry(groupRecordsMap[x].name, groupRecordsMap[x].records + [record])];
    assert Discovered(s, key) == keyOrder by {
      DiscoveredSnoc(scanned, record, key);
      assert x in keyOrder;
    }
    assert forall k :: k in m <==> k in keyOrder;
    forall k | k in m
      ensures m[k].records == Bucket(s, key, k) && m[k].name == nameOf(m[k].records[0])
    {
      BucketSnoc(scanned, record, key, k);
      if k != x {
        assert m[k] == groupRecordsMap[k];
      }
    }
  }

  /** A record with a key not seen before opens a new bucket, named after it,
      and its key is appended to the insertion order. */
  lemma CollectIntoNew<R>(scanned: seq<R>, record: R, key: R -> string, nameOf: R -> string,
                          keyOrder: seq<string>, groupRecordsMap: map<string, BucketEntry<R>>)
    requires BucketsCollected(scanned, key, nameOf, keyOrder, groupRecordsMap)
    requires key(record) !in groupRecordsMap
    ensures BucketsCollected(scanned + [record], key, nameOf, keyOrder + [key(record)],
      groupRecordsMap[key(record) := BucketEntry(nameOf(record), [record])])
  {
    var s := scanned + [record];
    var x := key(record);
    var m := groupRecordsMap[x := BucketEntry(nameOf(record), [record])];
    assert x !in keyOrder;
    assert Discovered(s, key) == keyOrder + [x] by {
      DiscoveredSnoc(scanned, record, key);
    }
    assert forall k :: k in m <==> k in keyOrder + [x];
    forall k | k in m
      ensures m[k].records == Bucket(s, key, k) && m[k].name == nameOf(m[k].records[0])
    {
      BucketSnoc(scanned, record, key, k);
      if k == x {
        assert Bucket(scanned, key, x) == [];
      } else {
        assert m[k] == groupRecordsMap[k];
      }
    }
  }

  /** Every key in the insertion order has a bucket with records in it. */
  lemma CollectedKeysOccur<R>(records: seq<R>, key: R -> string, nameOf: R -> string,
                              keyOrder: seq<string>, groupRecordsMap: map<string, BucketEntry<R>>, j: nat)
    requires BucketsCollected(records, key, nameOf, keyOrder, groupRecordsMap)
    requires j <= |keyOrder|
    ensures forall k :: k in keyOrder[..j] ==> Occurs(records, key, k)
  {
    assert forall k :: k in keyOrder[..j] ==> k in keyOrder;
  }

  /** The entry of a key in the insertion order is that key's bucket, named
      after its first record. */
  lemma EntryIsBucket<R>(records: seq<R>, key: R -> string, nameOf: R -> string,
                         keyOrder: seq<string>, groupRecordsMap: map<string, BucketEntry<R>>, k: string)
    requires BucketsCollected(records, key, nameOf, keyOrder, groupRecordsMap)
    requires k in keyOrder
    ensures k in groupRecordsMap
    ensures groupRecordsMap[k].records == Bucket(records, key, k) != []
    ensures groupRecordsMap[k].name == nameOf(groupRecordsMap[k].records[0])
  {
  }

  /** One step of the walk adds the next descriptor and the next bucket. */
  lemma EmitStep<R>(records: seq<R>, key: R -> string, nameOf: R -> string,
                    keyOrder: seq<string>, entry: BucketEntry<R>, j: nat)
    requires j < |keyOrder|
    requires forall k :: k in keyOrder[..j + 1] ==> Occurs(records, key, k)
    requires entry.records == Bucket(records, key, keyOrder[j]) != []
    requires entry.name == nameOf(entry.records[0])
    ensures GroupsFor(records, key, nameOf, keyOrder[..j + 1]) ==
      GroupsFor(records, key, nameOf, keyOrder[..j]) +
        [Group(keyOrder[j], entry.name, |Flatten(records, key, keyOrder[..j])|, |entry.records|)]
    ensures Flatten(records, key, keyOrder[..j + 1]) == Flatten(records, key, keyOrder[..j]) + entry.records
  {
    var o := keyOrder[..j + 1];
    assert o[..j] == keyOrder[..j] && o[j] == keyOrder[j];
  }

  /** One iteration of the scan: the record is appended to the bucket of its
      key, and a key seen for the first time opens a new bucket named after the
      record and is appended to the insertion order. */
  function CollectStep<R>(keyOrder: seq<string>, groupRecordsMap: map<string, BucketEntry<R>>,
                          k: string, name: string, record: R): (next: (seq<string>, map<string, BucketEntry<R>>))
    ensures next.1.Keys == groupRecordsMap.Keys + {k}
    ensures next.1[k].records == (if k in groupRecordsMap then groupRecordsMap[k].records else []) + [record]
    ensures forall k' :: k' in groupRecordsMap && k' != k ==> next.1[k'] == groupRecordsMap[k']
    ensures next.0 == if k in groupRecordsMap then keyOrder else keyOrder + [k]
  {
    if k in groupRecordsMap then
      (keyOrder, groupRecordsMap[k := BucketEntry(groupRecordsMap[k].name, groupRecordsMap[k].records + [record])])
    else
      (keyOrder + [k], groupRecordsMap[k := BucketEntry(name, [record])])
  }

  /** The step keeps the object in agreement with the records scanned so far. */
  lemma CollectStepKeepsBuckets<R>(records: seq<R>, i: nat, key: R -> string, nameOf: R -> string,
                                   keyOrder: seq<string>, groupRecordsMap: map<string, BucketEntry<R>>)
    requires i < |records|
    requires BucketsCollected(records[..i], key, nameOf, keyOrder, groupRecordsMap)
    ensures BucketsCollected(records[..i + 1], key, nameOf,
      CollectStep(keyOrder, groupRecordsMap, key(records[i]), nameOf(records[i]), records[i]).0,
      CollectStep(keyOrder, groupRecordsMap, key(records[i]), nameOf(records[i]), records[i]).1)
  {
    var record := records[i];
    assert records[..i + 1] == records[..i] + [record];
    if key(record) in groupRecordsMap {
      CollectIntoExisting(records[..i], record, key, nameOf, keyOrder, groupRecordsMap);
    } else {
      CollectIntoNew(records[..i], record, key, nameOf, keyOrder, groupRecordsMap);
    }
  }

  /** The scan over the records in sorted order. */
  method CollectBuckets<R>(records: seq<R>, columns: seq<Column>, reader: RecordReader<R>)
    returns (keyOrder: seq<string>, groupRecordsMap: map<string, BucketEntry<R>>)
    ensures BucketsCollected(records, KeyFunction(reader, columns), NameFunction(reader, columns), keyOrder, groupRecordsMap)
  {
    ghost var key := KeyFunction(reader, columns);
    ghost var nameOf := NameFunction(reader, columns);
    keyOrder := [];
    groupRecordsMap := map[];
    var i := 0;
    while i < |records|
      invariant 0 <= i <= |records|
      invariant BucketsCollected(records[..i], key, nameOf, keyOrder, groupRecordsMap)
    {
      var record := records[i];
      var k, name := CreateGroupKeyAndName(reader, record, columns);
      assert k == key(record) && name == nameOf(record);
      CollectStepKeepsBuckets(records, i, key, nameOf, keyOrder, groupRecordsMap);
      var next := CollectStep(keyOrder, groupRecordsMap, k, name, record);
      keyOrder, groupRecordsMap := next.0, next.1;
      i := i + 1;
    }
    assert records[..i] == records;
  }

  /** Pushes the records of one bucket, one by one, onto the output. */
  method PushAll<R>(target: seq<R>, items: seq<R>) returns (result: seq<R>)
    ensures result == target + items
  {
    result := target;
    var m := 0;
    while m < |items|
      invariant 0 <= m <= |items|
      invariant result == target + items[..m]
    {
      assert items[..m + 1] == items[..m] + [items[m]];
      result := result + [items[m]];
      m := m + 1;
    }
    assert items[..m] == items;
  }

  /** The walk over the buckets in insertion order: each bucket yields one
      descriptor, starting at the current length of the output, and its
      records are appended to the output. */
  method EmitGroups<R>(ghost records: seq<R>, ghost key: R -> string, ghost nameOf: R -> string,
                       keyOrder: seq<string>, groupRecordsMap: map<string, BucketEntry<R>>)
    returns (groups: seq<Group>, groupedRecords: seq<R>)
    requires BucketsCollected(records, key, nameOf, keyOrder, groupRecordsMap)
    ensures groups == GroupsOf(records, key, nameOf)
    ensures groupedRecords == Flattened(records, key)
  {
    groupedRecords := [];
    groups := [];
    var j := 0;
    while j < |keyOrder|
      invariant 0 <= j <= |keyOrder|
      invariant forall k :: k in keyOrder[..j] ==> Occurs(records, key, k)
      invariant groups == GroupsFor(records, key, nameOf, keyOrder[..j])
      invariant groupedRecords == Flatten(records, key, keyOrder[..j])
    {
      var k := keyOrder[j];
      CollectedKeysOccur(records, key, nameOf, keyOrder, groupRecordsMap, j + 1);
      EntryIsBucket(records, key, nameOf, keyOrder, groupRecordsMap, k);
      var entry := groupRecordsMap[k];
      EmitStep(records, key, nameOf, keyOrder, entry, j);
      groups := groups + [Group(k, entry.name, |groupedRecords|, |entry.records|)];
      groupedRecords := PushAll(groupedRecords, entry.records);
      j := j + 1;
    }
    assert keyOrder[..j] == keyOrder;
  }

  /** Groups the dataset by the selected columns. With no column selected the
      records come back in sorted order and there are no groups; otherwise the
      result is the bucketing by composite key in order of first occurrence. */
  method GroupDataset<R>(dataset: Dataset<R>, columns: seq<Column>, reader: RecordReader<R>)
    returns (view: GroupedView<R>)
    requires Resolvable(dataset)
    ensures columns == [] ==> view.groups == None && view.records == SortedRecords(dataset)
    ensures columns != [] ==>
      view == GroupBy(SortedRecords(dataset), KeyFunction(reader, columns), NameFunction(reader, columns))
  {
    var records := SortedRecords(dataset);
    if |columns| == 0 {
      return GroupedView(None, records);
    }
    var keyOrder, groupRecordsMap := CollectBuckets(records, columns, reader);
    var groups, groupedRecords := EmitGroups(records, KeyFunction(reader, columns), NameFunction(reader, columns), keyOrder, groupRecordsMap);
    view := GroupedView(Some(groups), groupedRecords);
  }
}
