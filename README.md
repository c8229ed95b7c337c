# Multi-field grouping list: a Dafny model

The `GroupList` component in `GroupingView/groupList.tsx` shows a dataset of
the hosting framework as a list that the user can group by several columns.

- **Selecting columns.** A click on a column header toggles that column in
  the selection. If a column with that name is already selected, every
  column with that name is removed. Otherwise the column is appended.
- **Header flag.** Each header shows whether its column is in the
  selection (`isGrouped`).
- **Group key and label.** For every record the engine builds a composite
  key: `_` followed by the raw value of each selected column, with no
  separator. It also builds a label: each formatted value followed by one
  space.
- **Bucketing.** The engine buckets the records by key in a plain object.
  The records are read in the dataset's sorted order.
- **Output.** The engine walks the buckets in insertion order. For each
  bucket it emits one group descriptor `{key, name, startIndex, count}` and
  appends the bucket's records to a flattened output. With no column
  selected it returns no groups and the records in sorted order.

The model follows the source's own shape:

- **Selection** (`selection.dfy`):
  - the membership test `IsGrouped`;
  - the removal `WithoutName`;
  - the toggle `Toggle`;
  - a `GroupList` class whose `OnColumnClick` method updates the
    `groupingColumns` field.
- **GroupKey** (`group_key.dfy`):
  - `KeyOf` and `NameOf` specify the key and the label;
  - the loop that builds them is the method `CreateGroupKeyAndName`.
- **Buckets** (`buckets.dfy`): reference definitions of what grouping
  produces, stated over a sequence of records and a key function:
  - `Discovered`: the distinct keys in order of first occurrence;
  - `Bucket`: the bucket of one key;
  - `Flattened`: the flattened records;
  - `GroupsOf`: the descriptors;
  - `GroupBy`: the grouped view.
- **GroupingProperties** (`grouping_properties.dfy`): what grouping
  promises, proved about those definitions:
  - the output is a permutation of the input;
  - the groups tile the output;
  - groups follow first-occurrence order and are named after their first
    record;
  - each group covers exactly its bucket and keeps input order;
  - grouping the output again changes nothing.
- **GroupingEngine** (`grouping_engine.dfy`): the imperative engine.
  - `CollectBuckets` is the scan that fills the object. It is modelled as
    the key insertion order plus a `map`.
  - `EmitGroups` is the walk that emits descriptors and pushes records.
  - `GroupDataset` puts the two together. Each is proved to compute
    exactly the reference definitions.
- **PrototypeKeys** (`prototype_keys.dfy`): the object lookup as written,
  for the finding below.
- **SeqLemmas** (`seq_lemmas.dfy`): general sequence facts used by the
  proofs.

The records of the dataset are a type parameter. The hosting framework's
`getValue(..).toString()` and `getFormattedValue` are two given functions
in `RecordReader`.

The key always starts with `_`, so no key is an integer-like property name.
Walking the object with `for…in` therefore visits keys in insertion order,
which is the order in which each key first occurs. The model takes that
order as its definition of the walk.

Toggling a column that is not selected twice restores the selection
(`ToggleTwiceRestores`). Toggling a selected column twice removes every
entry with its name and re-appends it at the end (`ToggleTwiceMovesToEnd`);
when that column was the only entry with its name and the last entry, this
too gives back the original selection (`ToggleTwiceRestoresLast`).

## Model

| member | source | states |
|---|---|---|
| Selection.IsGrouped | GroupingView/groupList.tsx:125 | true exactly when some selected column has the given name |
| Selection.WithoutName | GroupingView/groupList.tsx:137 | the result holds exactly the selected columns whose name differs from the clicked one, and is no longer than the selection |
| Selection.WithoutNameKeepsOrder | GroupingView/groupList.tsx:137 | two kept columns at positions i < j reappear in the result at positions p < q: the survivors keep their relative order |
| Selection.WithoutAbsentName | GroupingView/groupList.tsx:137 | removing a name that no column has leaves the selection unchanged |
| Selection.Toggle | GroupingView/groupList.tsx:136-141 | the clicked name flips membership and every other name keeps its membership; a selected column's click gives exactly `WithoutName` of the selection, so the surviving columns keep their order; a column that was not selected is appended as the last element after the unchanged existing columns |
| Selection.ToggleKeepsNamesDistinct | GroupingView/groupList.tsx:136-141 | a selection without duplicate names keeps that property under a toggle |
| Selection.WithoutNameKeepsNamesDistinct | GroupingView/groupList.tsx:137 | the removal keeps a selection free of duplicate names |
| Selection.ToggleTwiceRestores | GroupingView/groupList.tsx:136-141 | toggling an unselected column twice gives back the original selection |
| Selection.ToggleTwiceRestoresLast | GroupingView/groupList.tsx:136-141 | a selected column that is the last entry and the only one with its name is restored by two toggles |
| Selection.ToggleTwiceMovesToEnd | GroupingView/groupList.tsx:136-141 | toggling a selected column twice removes it and re-appends it at the end |
| Selection.GroupList.constructor | GroupingView/groupList.tsx:19-25 | the selection starts empty |
| Selection.GroupList.OnColumnClick | GroupingView/groupList.tsx:133-145 | the new selection is the toggle of the old one, and duplicate-free selections stay duplicate-free |
| GroupKey.KeyOf | GroupingView/groupList.tsx:100-103 | every key is non-empty and starts with `_` |
| GroupKey.NameOf | GroupingView/groupList.tsx:101-104 | the label of a record under a selection; it has no `ensures` of its own: `NameIsSpaceTerminated` and `NameLength` state its shape and length, and `CreateGroupKeyAndName` proves the loop computes it |
| GroupKey.CreateGroupKeyAndName | GroupingView/groupList.tsx:96-111 | the loop returns exactly KeyOf and NameOf of the record under the selection |
| GroupKey.KeyIsUnseparatedConcat | GroupingView/groupList.tsx:100-103 | the key is `_` followed by the raw values of the selected columns, in selection order, joined with no separator |
| GroupKey.NameIsSpaceTerminated | GroupingView/groupList.tsx:101-104 | the label is every formatted value, in selection order, each followed by one space |
| GroupKey.KeyLength | GroupingView/groupList.tsx:100-103 | the key is one character longer than the raw values together |
| GroupKey.NameLength | GroupingView/groupList.tsx:101-104 | the label's length is the total length of the formatted values plus the number of selected columns |
| GroupKey.KeyAppend | GroupingView/groupList.tsx:102-103 | selecting more columns extends the key by their raw values, with no separator |
| GroupKey.KeyDependsOnlyOnRawValues | GroupingView/groupList.tsx:102-103 | records that agree on every selected raw value get the same key |
| GroupKey.KeyCollision | GroupingView/groupList.tsx:100-103 | raw values "1","23" and "12","3" both give the key "_123", so those records share a group |
| GroupKey.LabelExample | GroupingView/groupList.tsx:101-104 | formatted values "Open","High" give the label "Open High " |
| Buckets.Discovered | GroupingView/groupList.tsx:62-73 | the keys in insertion order are distinct and are exactly the keys that occur in the records |
| Buckets.Bucket | GroupingView/groupList.tsx:64-71 | every record in a key's bucket has that key, and the bucket is non-empty exactly when the key occurs |
| Buckets.Flatten | GroupingView/groupList.tsx:85-87 | the buckets of a list of walked keys laid end to end; no `ensures` of its own: `FlattenAppend`, `BucketOfFlatten`, `DiscoveredOfFlatten` and `TotalCountGroupsFor` state its properties |
| Buckets.GroupsFor | GroupingView/groupList.tsx:78-83 | one descriptor per walked key, each of which must occur in the records; `GroupsForAt` pins each descriptor's key, name, start and count |
| Buckets.Flattened | GroupingView/groupList.tsx:85-87 | the flattened output in insertion order; no `ensures` of its own: `FlattenedIsPermutation` proves it a permutation of the input and `GroupsCoverTheirBuckets` locates each bucket in it |
| Buckets.GroupsOf | GroupingView/groupList.tsx:75-83 | the descriptors in insertion order; no `ensures` of its own: `GroupsPartitionRecords`, `GroupsCoverTheirBuckets`, `GroupRowsCarryGroupKey` and `GroupsInFirstOccurrenceOrder` state what they promise |
| Buckets.GroupBy | GroupingView/groupList.tsx:48-94 | the grouped view for a non-empty selection; no `ensures` of its own: `GroupByIsPermutation` and `RegroupingIsStable` are proved about it, and `GroupDataset` is proved to return it |
| Buckets.FirstIndex | GroupingView/groupList.tsx:64-71 | the position of a key's first occurrence: it has the key and no earlier record does |
| Buckets.Positions | GroupingView/groupList.tsx:62-66 | the positions of the records with a key, strictly increasing and complete |
| GroupingProperties.FlattenedIsPermutation | GroupingView/groupList.tsx:62-88 | the flattened output is a permutation of the input: same multiset, same length |
| GroupingProperties.GroupByIsPermutation | GroupingView/groupList.tsx:62-88 | the records of the grouped view are a permutation of the input |
| GroupingProperties.GroupsPartitionRecords | GroupingView/groupList.tsx:75-88 | the first group starts at 0, each later group starts where the previous ends, no group is empty, and the counts add up to the number of input records |
| GroupingProperties.GroupsForAt | GroupingView/groupList.tsx:78-83 | the i-th descriptor carries the i-th key, the name of its bucket's first record, the length of the output before it as start, and its bucket's size as count |
| GroupingProperties.TotalCountGroupsFor | GroupingView/groupList.tsx:81-87 | the descriptor counts add up to the length of the flattened output |
| GroupingProperties.GroupsCoverTheirBuckets | GroupingView/groupList.tsx:78-87 | output rows [startIndex, startIndex + count) of each group are exactly the bucket of its key |
| GroupingProperties.GroupRowsCarryGroupKey | GroupingView/groupList.tsx:78-87 | every row a group covers has the group's key |
| GroupingProperties.DiscoveredInFirstOccurrenceOrder | GroupingView/groupList.tsx:64-71 | the insertion order lists keys by increasing first occurrence |
| GroupingProperties.BucketHeadIsFirst | GroupingView/groupList.tsx:67-71 | the first record of a bucket is the first input record with that key |
| GroupingProperties.GroupsInFirstOccurrenceOrder | GroupingView/groupList.tsx:64-80 | every group key occurs, groups come in order of first occurrence, no two share a key, every input key has a group, and each group is named after the first record with its key |
| GroupingProperties.BucketFollowsInputOrder | GroupingView/groupList.tsx:62-66 | a bucket holds the records with its key at increasing input positions, so records in a group keep their input order |
| GroupingProperties.FlattenAppend | GroupingView/groupList.tsx:77-88 | walking two key lists one after the other appends their outputs |
| GroupingProperties.BucketOfFlatten | GroupingView/groupList.tsx:77-88 | in the flattened output a key's bucket is its original bucket when the key was walked, and empty otherwise |
| GroupingProperties.DiscoveredOfFlatten | GroupingView/groupList.tsx:77-88 | the keys of the flattened output, in first-occurrence order, are exactly the keys walked |
| GroupingProperties.RegroupingIsStable | GroupingView/groupList.tsx:48-94 | grouping the grouped output again gives the same groups and the same record sequence |
| GroupingEngine.SortedRecords | GroupingView/groupList.tsx:52 | the records are the dataset's lookup applied to the sorted ids, position by position |
| GroupingEngine.CollectStep | GroupingView/groupList.tsx:63-72 | one scan step appends the record to its key's bucket, opens a bucket and extends the insertion order for a new key, and leaves other buckets alone |
| GroupingEngine.CollectStepKeepsBuckets | GroupingView/groupList.tsx:62-73 | each scan step keeps the object equal to the buckets of the records scanned so far, named after each bucket's first record |
| GroupingEngine.CollectBuckets | GroupingView/groupList.tsx:62-73 | after the scan the insertion order is the distinct keys in first-occurrence order, and each key maps to its bucket and its first record's label |
| GroupingEngine.PushAll | GroupingView/groupList.tsx:85-87 | pushing a bucket's records one by one appends the bucket to the output |
| GroupingEngine.EmitStep | GroupingView/groupList.tsx:78-87 | one walk step appends the next descriptor and the next bucket |
| GroupingEngine.EmitGroups | GroupingView/groupList.tsx:75-88 | the walk yields exactly the reference descriptors and the reference flattened output |
| GroupingEngine.GroupDataset | GroupingView/groupList.tsx:48-94 | with no column selected, no groups and the sorted records; otherwise exactly the grouping by composite key in first-occurrence order |
| PrototypeKeys.LookupAsWritten | GroupingView/groupList.tsx:53-64 | for a key starting with `_`, as every group key does, a lookup finds an own bucket exactly for stored keys, and an inherited member exactly for the inherited names that are not stored |
| PrototypeKeys.CollectStepAsWritten | GroupingView/groupList.tsx:63-72 | the step as written throws exactly when the key is an inherited name with no bucket |
| PrototypeKeys.AsWrittenAgreesOffInheritedNames | GroupingView/groupList.tsx:63-72 | for every other key the step as written is the intended step |
| PrototypeKeys.ProtoValueThrows | GroupingView/groupList.tsx:63-65 | a record whose only grouping value is "_proto__" gets the key "__proto__", on which the first scan step throws while the intended step opens a bucket |

## Left out

- Rendering: `render`, the list control, `Text` and `onRenderItemColumn` only hand data to the UI library.
- Column sizing in `createColumns` (display name, widths, handler binding) is copied from the framework's column and is not modelled; only its `isGrouped` test is (`Selection.IsGrouped`).
- React state plumbing: `setState` and its asynchrony are not modelled. `OnColumnClick` assigns the new selection directly. The constructor's capture of the dataset is left out; `GroupDataset` takes the dataset as a parameter.
- Selection.GroupList.OnColumnClick: the source appends with `push` onto the array it read from the state, so the old state array is changed in place as well; the model works on a value and does not capture that aliasing.
- The framework's record API is not modelled: `getValue(..).toString()` and `getFormattedValue` are given total functions (`RecordReader`). Null or undefined raw values, on which `toString()` would throw, are not modelled.
- GroupingEngine.GroupDataset: requires every sorted id to be present in the record lookup (`Resolvable`); the source would read `undefined` for a missing id and is not modelled on that path.
- JavaScript's enumeration of integer-like property names before others is not modelled; the `_` prefix of every key (`GroupKey.KeyOf`) rules such names out.
- The inherited-member crash is modelled for one scan step (`PrototypeKeys`), not threaded through the whole scan; `GroupDataset` models the intended dictionary behaviour.
- GroupingProperties.RegroupingIsStable: stated on the reference grouping of a record sequence, not on a dataset built from the grouped output.

## Findings

| source | as written | input that shows it | evidently intended | confidence | as-written member | corrected member |
|---|---|---|---|---|---|---|
| GroupingView/groupList.tsx:53-65 | the buckets live in a plain object literal, so `groupRecordsMap[key]` also finds inherited members; the group key starts with `_`, so the names `__proto__`, `__defineGetter__`, `__defineSetter__`, `__lookupGetter__` and `__lookupSetter__` are still reachable, the lookup is truthy without a bucket, and `.records.push` throws a TypeError | one selected column whose raw value for some record is "_proto__" (key "__proto__") | the object is used as a dictionary of own keys only, so a new key opens a new bucket | high, not executed | PrototypeKeys.ProtoValueThrows | GroupingEngine.CollectBuckets |
