/** The composite group key and the group label of one record. The key is
    `_` followed by the string form of the record's raw value in every selected
    column, in selection order and with no separator; the label is every
    formatted value followed by one space. */
module GroupKey {
  import opened Selection

  /** The two read operations a record offers. `getValue` stands for the raw
      value already converted with `toString()`; `getFormattedValue` is the
      display string. Both are supplied by the hosting framework. */
  datatype RecordReader<!R> = RecordReader(getValue: (R, string) -> string, getFormattedValue: (R, string) -> string)

  /** The key after the first |columns| fragments have been appended to `_`. */
  function KeyOf<R>(reader: RecordReader<R>, record: R, columns: seq<Column>): (key: string)
    ensures |key| >= 1 && key[0] == '_'
  {
    if columns == [] then "_"
    else
      var n := |columns| - 1;
      KeyOf(reader, record, columns[..n]) + reader.getValue(record, columns[n].name)
  }

  /** The label after the first |columns| formatted values have been appended. */
  function NameOf<R>(reader: RecordReader<R>, record: R, columns: seq<Column>): string
  {
    if columns == [] then ""
    else
      var n := |columns| - 1;
      NameOf(reader, record, columns[..n]) + reader.getFormattedValue(record, columns[n].name) + " "
  }

  /** Builds the key and the label of `record` fragment by fragment. */
  method CreateGroupKeyAndName<R>(reader: RecordReader<R>, record: R, columns: seq<Column>)
    returns (key: string, name: string)
    ensures key == KeyOf(reader, record, columns)
    ensures name == NameOf(reader, record, columns)
  {
    key := "_";
    name := "";
    var i := 0;
    while i < |columns|
      invariant 0 <= i <= |columns|
      invariant key == KeyOf(reader, record, columns[..i])
      invariant name == NameOf(reader, record, columns[..i])
    {
      assert columns[..i + 1][..i] == columns[..i];
      key := key + reader.getValue(record, columns[i].name);
      name := name + reader.getFormattedValue(record, columns[i].name) + " ";
      i := i + 1;
    }
    assert columns[..|columns|] == columns;
  }

  /** The string values of one record in the selected columns. */
  function RawValues<R>(reader: RecordReader<R>, record: R, columns: seq<Column>): (vs: seq<string>)
    ensures |vs| == |columns|
    ensures forall i :: 0 <= i < |columns| ==> vs[i] == reader.getValue(record, columns[i].name)
  {
    seq(|columns|, i requires 0 <= i < |columns| => reader.getValue(record, columns[i].name))
  }

  function FormattedValues<R>(reader: RecordReader<R>, record: R, columns: seq<Column>): (vs: seq<string>)
    ensures |vs| == |columns|
    ensures forall i :: 0 <= i < |columns| ==> vs[i] == reader.getFormattedValue(record, columns[i].name)
  {
    seq(|columns|, i requires 0 <= i < |columns| => reader.getFormattedValue(record, columns[i].name))
  }

  /** The fragments joined with no separator. */
  function Concat(parts: seq<string>): string
  {
    if parts == [] then "" else Concat(parts[..|parts| - 1]) + parts[|parts| - 1]
  }

  /** The fragments each followed by one space. */
  function SpaceTerminated(parts: seq<string>): string
  {
    if parts == [] then "" else SpaceTerminated(parts[..|parts| - 1]) + parts[|parts| - 1] + " "
  }

  /** Total length of the fragments. */
  function TotalLength(parts: seq<string>): nat
  {
    if parts == [] then 0 else TotalLength(parts[..|parts| - 1]) + |parts[|parts| - 1]|
  }

  /** The key is `_` followed by the raw values joined with no separator. */
  lemma {:induction false} KeyIsUnseparatedConcat<R>(reader: RecordReader<R>, record: R, columns: seq<Column>)
    ensures KeyOf(reader, record, columns) == "_" + Concat(RawValues(reader, record, columns))
  {
    if columns != [] {
      var n := |columns| - 1;
      KeyIsUnseparatedConcat(reader, record, columns[..n]);
      assert RawValues(reader, record, columns)[..n] == RawValues(reader, record, columns[..n]);
    }
  }

  /** The label is every formatted value followed by a single space. */
  lemma {:induction false} NameIsSpaceTerminated<R>(reader: RecordReader<R>, record: R, columns: seq<Column>)
    ensures NameOf(reader, record, columns) == SpaceTerminated(FormattedValues(reader, record, columns))
  {
    if columns != [] {
      var n := |columns| - 1;
      NameIsSpaceTerminated(reader, record, columns[..n]);
      assert FormattedValues(reader, record, columns)[..n] == FormattedValues(reader, record, columns[..n]);
    }
  }

  /** The key is one character longer than the raw values together. */
  lemma {:induction false} KeyLength<R>(reader: RecordReader<R>, record: R, columns: seq<Column>)
    ensures |KeyOf(reader, record, columns)| == 1 + TotalLength(RawValues(reader, record, columns))
  {
    if columns != [] {
      var n := |columns| - 1;
      KeyLength(reader, record, columns[..n]);
      assert RawValues(reader, record, columns)[..n] == RawValues(reader, record, columns[..n]);
    }
  }

  /** The label is as long as the formatted values together plus one space
      per selected column. */
  lemma {:induction false} NameLength<R>(reader: RecordReader<R>, record: R, columns: seq<Column>)
    ensures |NameOf(reader, record, columns)| == TotalLength(FormattedValues(reader, record, columns)) + |columns|
  {
    if columns != [] {
      var n := |columns| - 1;
      NameLength(reader, record, columns[..n]);
      assert FormattedValues(reader, record, columns)[..n] == FormattedValues(reader, record, columns[..n]);
    }
  }

  /** Selecting more columns extends the key by their raw values, with no
      separator in between. */
  lemma {:induction false} KeyAppend<R>(reader: RecordReader<R>, record: R, a: seq<Column>, b: seq<Column>)
    ensures KeyOf(reader, record, a + b) == KeyOf(reader, record, a) + Concat(RawValues(reader, record, b))
  {
    if b != [] {
      var n := |b| - 1;
      assert (a + b)[..|a| + n] == a + b[..n];
      KeyAppend(reader, record, a, b[..n]);
      assert RawValues(reader, record, b)[..n] == RawValues(reader, record, b[..n]);
    } else {
      assert a + b == a;
    }
  }

  /** Records that agree on the raw value of every selected column share a
      key, whatever their other columns hold. */
  lemma {:induction false} KeyDependsOnlyOnRawValues<R>(reader: RecordReader<R>, x: R, y: R, columns: seq<Column>)
    requires forall i :: 0 <= i < |columns| ==> reader.getValue(x, columns[i].name) == reader.getValue(y, columns[i].name)
    ensures KeyOf(reader, x, columns) == KeyOf(reader, y, columns)
  {
    if columns != [] {
      var n := |columns| - 1;
      KeyDependsOnlyOnRawValues(reader, x, y, columns[..n]);
    }
  }

  /** Because fragments are not separated, x = "1", y = "23" and x = "12",
      y = "3" give the same key "_123" and so land in the same group. */
  lemma KeyCollision<R>(reader: RecordReader<R>, a: R, b: R, cx: Column, cy: Column)
    requires reader.getValue(a, cx.name) == "1" && reader.getValue(a, cy.name) == "23"
    requires reader.getValue(b, cx.name) == "12" && reader.getValue(b, cy.name) == "3"
    ensures KeyOf(reader, a, [cx, cy]) == KeyOf(reader, b, [cx, cy]) == "_123"
  {
    assert [cx, cy][..1] == [cx];
    assert [cx][..0] == [];
    assert KeyOf(reader, a, [cx]) == "_" + "1";
    assert KeyOf(reader, b, [cx]) == "_" + "12";
    assert KeyOf(reader, a, [cx, cy]) == "_" + "1" + "23";
    assert KeyOf(reader, b, [cx, cy]) == "_" + "12" + "3";
    assert "_" + "1" + "23" == "_123";
    assert "_" + "12" + "3" == "_123";
  }

  /** Formatted values "Open" and "High" give the label "Open High ". */
  lemma LabelExample<R>(reader: RecordReader<R>, record: R, c1: Column, c2: Column)
    requires reader.getFormattedValue(record, c1.name) == "Open"
    requires reader.getFormattedValue(record, c2.name) == "High"
    ensures NameOf(reader, record, [c1, c2]) == "Open High "
  {
    assert [c1, c2][..1] == [c1];
    assert [c1][..0] == [];
    assert NameOf(reader, record, [c1]) == "" + "Open" + " ";
    assert NameOf(reader, record, [c1, c2]) == "" + "Open" + " " + "High" + " ";
    assert "" + "Open" + " " + "High" + " " == "Open High ";
  }
}
