/**
 * Properties of `ParseSheet<T>`: which properties of each record are written
 * and with what, how a failed conversion ends the enumeration, and how the
 * rows contribute to the records independently of each other.
 */
module ParseSheetProperties {
  import opened Wrappers
  import opened ExcelParser

  /**
   * Each property of record `i` of a class holds its converted cell if the
   * guard holds for row `i + 1`, else its initial value; a struct record's
   * properties all keep their initial values.
   */
  lemma RecordField(rows: seq<Row>, props: seq<Property>, coerce: Coercion, kind: RecordKind, i: nat, j: nat)
    requires i < |ParseSheet(rows, props, coerce, kind).records|
    requires j < |props|
    ensures var record := ParseSheet(rows, props, coerce, kind).records[i];
      |record| == |props| && i + 1 < |rows| &&
      (Assigns(props[j], rows[i + 1]) ==>
        coerce(OrEmpty(rows[i + 1][ColumnName(props[j]).value]), props[j].propType).Success?) &&
      (Assigns(props[j], rows[i + 1]) && kind == ReferenceType ==>
        Success(record[j]) == coerce(OrEmpty(rows[i + 1][ColumnName(props[j]).value]), props[j].propType)) &&
      (!Assigns(props[j], rows[i + 1]) || kind == ValueType ==> record[j] == props[j].initial)
  {
  }

  /** A property without a `Column` attribute, or whose attribute's name is null, keeps its initial value. */
  lemma UnannotatedNeverWritten(rows: seq<Row>, props: seq<Property>, coerce: Coercion, kind: RecordKind, i: nat, j: nat)
    requires i < |ParseSheet(rows, props, coerce, kind).records|
    requires j < |props|
    requires props[j].column == None || props[j].column == Some(Column(None))
    ensures ParseSheet(rows, props, coerce, kind).records[i][j] == props[j].initial
  {
  }

  /** A property whose column name is not a key of the row keeps its initial value. */
  lemma AbsentColumnNeverWritten(rows: seq<Row>, props: seq<Property>, coerce: Coercion, kind: RecordKind, i: nat, j: nat, name: string)
    requires i < |ParseSheet(rows, props, coerce, kind).records|
    requires j < |props|
    requires props[j].column == Some(Column(Some(name)))
    requires name !in rows[i + 1]
    ensures ParseSheet(rows, props, coerce, kind).records[i][j] == props[j].initial
  {
  }

  /** A property that is not writable keeps its initial value, whatever its annotation and the row. */
  lemma ReadOnlyNeverWritten(rows: seq<Row>, props: seq<Property>, coerce: Coercion, kind: RecordKind, i: nat, j: nat)
    requires i < |ParseSheet(rows, props, coerce, kind).records|
    requires j < |props|
    requires !props[j].canWrite
    ensures ParseSheet(rows, props, coerce, kind).records[i][j] == props[j].initial
  {
  }

  /**
   * A writable property annotated `Column(name)` whose name is a key of the row
   * has exactly that key's value converted, with null replaced by the empty
   * string, and the conversion succeeded since the record was yielded. A class
   * record holds the converted value; a struct record keeps its initial value.
   */
  lemma WrittenReceivesConversion(rows: seq<Row>, props: seq<Property>, coerce: Coercion, kind: RecordKind, i: nat, j: nat, name: string)
    requires i < |ParseSheet(rows, props, coerce, kind).records|
    requires j < |props|
    requires props[j].column == Some(Column(Some(name)))
    requires props[j].canWrite
    requires name in rows[i + 1]
    ensures var converted := coerce(if rows[i + 1][name] == Null then Text("") else rows[i + 1][name], props[j].propType);
      converted.Success?
    ensures var record := ParseSheet(rows, props, coerce, kind).records[i];
      kind == ReferenceType ==>
        (rows[i + 1][name] == Null ==> Success(record[j]) == coerce(Text(""), props[j].propType)) &&
        (rows[i + 1][name] != Null ==> Success(record[j]) == coerce(rows[i + 1][name], props[j].propType))
    ensures kind == ValueType ==> ParseSheet(rows, props, coerce, kind).records[i][j] == props[j].initial
  {
  }

  /**
   * A failing conversion of a written property of data row `i` ends the
   * enumeration with a failure before the record of row `i` is yielded.
   */
  lemma ConversionFailureEndsEnumeration(rows: seq<Row>, props: seq<Property>, coerce: Coercion, kind: RecordKind, i: nat, j: nat)
    requires 1 <= i < |rows|
    requires j < |props|
    requires Assigns(props[j], rows[i])
    requires coerce(OrEmpty(rows[i][ColumnName(props[j]).value]), props[j].propType).Failure?
    ensures ParseSheet(rows, props, coerce, kind).failure.Some?
    ensures |ParseSheet(rows, props, coerce, kind).records| < i
  {
  }

  /** A row for which no property's guard holds yields exactly the record `new T()` produced. */
  lemma NothingAssignedYieldsNewRecord(row: Row, props: seq<Property>, coerce: Coercion, kind: RecordKind)
    requires forall j :: 0 <= j < |props| ==> !Assigns(props[j], row)
    ensures BindRecord(row, props, coerce, kind) == Success(NewRecord(props))
  {
    var r := BindRecord(row, props, coerce, kind);
    assert r.Success?;
    assert |r.value| == |props|;
    assert forall j :: 0 <= j < |props| ==> r.value[j] == NewRecord(props)[j];
    assert r.value == NewRecord(props);
  }

  /** Whether a row's record fails, and with what, does not depend on whether `T` is a class or a struct. */
  lemma KindDoesNotDecideFailure(row: Row, props: seq<Property>, coerce: Coercion)
    ensures BindRecord(row, props, coerce, ValueType).Success? == BindRecord(row, props, coerce, ReferenceType).Success?
    ensures BindRecord(row, props, coerce, ValueType).Failure? ==>
      BindRecord(row, props, coerce, ValueType).error == BindRecord(row, props, coerce, ReferenceType).error
  {
  }

  /**
   * For a struct `T` the rows are enumerated and fail exactly as for a class,
   * but every record yielded is the one `new T()` made.
   */
  lemma {:induction false} StructRecordsStayNew(data: seq<Row>, props: seq<Property>, coerce: Coercion)
    ensures var byValue := Collect(data, props, coerce, ValueType);
      var byReference := Collect(data, props, coerce, ReferenceType);
      byValue.failure == byReference.failure && |byValue.records| == |byReference.records| &&
      forall i :: 0 <= i < |byValue.records| ==> byValue.records[i] == NewRecord(props)
    decreases |data|
  {
    if data != [] {
      KindDoesNotDecideFailure(data[0], props, coerce);
      StructRecordsStayNew(data[1..], props, coerce);
      var byValue := Collect(data, props, coerce, ValueType);
      var rest := Collect(data[1..], props, coerce, ValueType);
      if BindRecord(data[0], props, coerce, ValueType).Success? {
        assert forall i :: 1 <= i < |byValue.records| ==> byValue.records[i] == rest.records[i - 1];
      }
    }
  }

  /** `ParseSheet` over a struct `T`: same failure and count as for a class, every record untouched. */
  lemma StructSheetRecordsStayNew(rows: seq<Row>, props: seq<Property>, coerce: Coercion)
    ensures var byValue := ParseSheet(rows, props, coerce, ValueType);
      var byReference := ParseSheet(rows, props, coerce, ReferenceType);
      byValue.failure == byReference.failure && |byValue.records| == |byReference.records| &&
      forall i :: 0 <= i < |byValue.records| ==> byValue.records[i] == NewRecord(props)
  {
  }

  /** The header row's content never matters. */
  lemma HeaderIgnored(rows: seq<Row>, rows': seq<Row>, props: seq<Property>, coerce: Coercion, kind: RecordKind)
    requires |rows| > 0 && |rows'| > 0
    requires rows[1..] == rows'[1..]
    ensures ParseSheet(rows, props, coerce, kind) == ParseSheet(rows', props, coerce, kind)
  {
  }

  /**
   * Binding the rows of `a + b` is binding `a` and, unless that failed,
   * continuing with `b` from scratch: nothing carries over between rows.
   */
  lemma {:induction false} CollectAppend(a: seq<Row>, b: seq<Row>, props: seq<Property>, coerce: Coercion, kind: RecordKind)
    ensures var first := Collect(a, props, coerce, kind);
      var second := Collect(b, props, coerce, kind);
      Collect(a + b, props, coerce, kind) ==
        if first.failure.Some? then first
        else Enumeration(first.records + second.records, second.failure)
  {
    if a == [] {
      assert a + b == b;
    } else {
      var ab := a + b;
      assert ab[0] == a[0];
      assert ab[1..] == a[1..] + b;
      CollectAppend(a[1..], b, props, coerce, kind);
      var rest := Collect(a[1..], props, coerce, kind);
      var second := Collect(b, props, coerce, kind);
      match BindRecord(a[0], props, coerce, kind)
      case Failure(err) =>
        assert Collect(ab, props, coerce, kind) == Enumeration([], Some(err));
      case Success(r) =>
        assert Collect(ab, props, coerce, kind) == Enumeration([r] + Collect(a[1..] + b, props, coerce, kind).records,
          Collect(a[1..] + b, props, coerce, kind).failure);
        if rest.failure.None? {
          assert [r] + (rest.records + second.records) == ([r] + rest.records) + second.records;
        }
    }
  }

  /**
   * Appending rows to a sheet keeps everything enumerated so far: after a
   * failure nothing changes, otherwise the new rows' records follow.
   */
  lemma AppendedRowsExtendEnumeration(rows: seq<Row>, more: seq<Row>, props: seq<Property>, coerce: Coercion, kind: RecordKind)
    requires |rows| > 0
    ensures var before := ParseSheet(rows, props, coerce, kind);
      var extra := Collect(more, props, coerce, kind);
      ParseSheet(rows + more, props, coerce, kind) ==
        if before.failure.Some? then before
        else Enumeration(before.records + extra.records, extra.failure)
  {
    assert (rows + more)[1..] == rows[1..] + more;
    CollectAppend(rows[1..], more, props, coerce, kind);
  }
}
