/** The key-to-bucket object of the scan is a plain object literal, so a
    lookup by key also finds the members every object inherits. The group key
    always starts with `_`, which rules out all inherited member names except
    the five below; a key equal to one of them makes the lookup succeed
    although no bucket exists, and the push onto that bucket's records then
    fails with a TypeError. */
module PrototypeKeys {
  import opened Selection
  import opened GroupKey
  import opened GroupingEngine

  /** The inherited members of a plain object whose names start with `_`. */
  const InheritedNames: set<string> :=
    {"__proto__", "__defineGetter__", "__defineSetter__", "__lookupGetter__", "__lookupSetter__"}

  /** What `groupRecordsMap[key]` yields on a plain object. */
  datatype Lookup<R> = Own(entry: BucketEntry<R>) | Inherited | Absent

  function LookupAsWritten<R>(groupRecordsMap: map<string, BucketEntry<R>>, k: string): (l: Lookup<R>)
    requires |k| > 0 && k[0] == '_'
    ensures l.Own? <==> k in groupRecordsMap
    ensures l.Inherited? <==> k !in groupRecordsMap && k in InheritedNames
  {
    if k in groupRecordsMap then Own(groupRecordsMap[k])
    else if k in InheritedNames then Inherited
    else Absent
  }

  /** The scan after one more record, or the TypeError it throws. */
  datatype Outcome<R> = Continue(keyOrder: seq<string>, groupRecordsMap: map<string, BucketEntry<R>>) | TypeError

  /** One iteration of the scan as written: a truthy lookup, own or inherited,
      takes the push branch, and pushing onto an inherited member throws. */
  function CollectStepAsWritten<R>(keyOrder: seq<string>, groupRecordsMap: map<string, BucketEntry<R>>,
                                   k: string, name: string, record: R): (next: Outcome<R>)
    requires |k| > 0 && k[0] == '_'
    ensures next.TypeError? <==> k !in groupRecordsMap && k in InheritedNames
  {
    match LookupAsWritten(groupRecordsMap, k)
    case Own(entry) => Continue(keyOrder, groupRecordsMap[k := BucketEntry(entry.name, entry.records + [record])])
    case Inherited => TypeError
    case Absent => Continue(keyOrder + [k], groupRecordsMap[k := BucketEntry(name, [record])])
  }

  /** Away from the inherited names the step as written is the step the scan
      is meant to take, CollectStep. */
  lemma AsWrittenAgreesOffInheritedNames<R>(keyOrder: seq<string>, groupRecordsMap: map<string, BucketEntry<R>>,
                                            k: string, name: string, record: R)
    requires |k| > 0 && k[0] == '_'
    requires k !in InheritedNames
    ensures CollectStepAsWritten(keyOrder, groupRecordsMap, k, name, record) ==
      Continue(CollectStep(keyOrder, groupRecordsMap, k, name, record).0, CollectStep(keyOrder, groupRecordsMap, k, name, record).1)
  {
  }

  /** A record whose only grouping column holds "_proto__" gets the key
      "__proto__": the very first step of the scan throws, where the intended
      step opens a bucket for it. */
  lemma ProtoValueThrows<R>(reader: RecordReader<R>, record: R, column: Column)
    requires reader.getValue(record, column.name) == "_proto__"
    ensures KeyOf(reader, record, [column]) == "__proto__"
    ensures CollectStepAsWritten([], map[], KeyOf(reader, record, [column]), NameOf(reader, record, [column]), record).TypeError?
    ensures CollectStep([], map[], KeyOf(reader, record, [column]), NameOf(reader, record, [column]), record)
              == (["__proto__"], map["__proto__" := BucketEntry(NameOf(reader, record, [column]), [record])])
  {
    assert [column][..0] == [];
    assert KeyOf(reader, record, [column]) == "_" + "_proto__";
    assert "_" + "_proto__" == "__proto__";
    assert [] + ["__proto__"] == ["__proto__"];
  }
}
