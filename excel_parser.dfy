/**
 * Model of `ExcelParser` (ExcelParser.cs): the `Column` attribute and the
 * record-binding rule of `ParseSheet<T>`.
 *
 * The spreadsheet reader, `Convert.ChangeType` and reflection are outside the
 * model: the rows the reader yields are an input, the properties of `T` are an
 * explicit list of descriptors, and the conversion is a parameter that may fail.
 */
module ExcelParser {
  import opened Wrappers

  /** An object held in a row cell or in a record property; `Null` is C#'s null. */
  datatype Value =
    | Null
    | Text(text: string)
    | Number(number: real)
    | Boolean(flag: bool)
    | DateTime(ticks: int)

  /**
   * The `Column` attribute as `GetCustomAttribute` returns it. `name` is its
   * final `Name`: the constructor argument, or the value of a named
   * `Name = ...` argument when the attribute use gives one. It may be null
   * in C#, hence the option.
   */
  datatype Column = Column(name: Option<string>)

  /** The declared type of a property, the target of the conversion. */
  datatype PropType = PropType(fullName: string)

  /**
   * One public property of the record type `T`: its name, its `Column`
   * attribute if it carries one, whether it is writable (`CanWrite`), its
   * declared type, and the value that `new T()` leaves in it.
   */
  datatype Property = Property(
    name: string,
    column: Option<Column>,
    canWrite: bool,
    propType: PropType,
    initial: Value)

  /** The failures `Convert.ChangeType` may raise. */
  datatype ConversionError = InvalidCast | BadFormat | Overflow

  /** One row as the reader yields it: column key to cell value. */
  type Row = map<string, Value>

  /** A record of type `T`: one value per property, in property order. */
  type Record = seq<Value>

  /**
   * Whether `T` is a class or a struct (both satisfy `new()`). For a struct,
   * `prop.SetValue(record, ...)` boxes `record` and writes into the box, so
   * the local `record` keeps the values `new T()` gave it.
   */
  datatype RecordKind = ReferenceType | ValueType

  /** `Convert.ChangeType(value, type)`, left abstract. */
  type Coercion = (Value, PropType) -> Result<Value, ConversionError>

  /**
   * What enumerating the lazy result of `ParseSheet` to its end observes:
   * the records yielded, then the exception that stopped it, if any.
   */
  datatype Enumeration = Enumeration(records: seq<Record>, failure: Option<ConversionError>)

  /** `prop.GetCustomAttribute<Column>()?.Name`: null when there is no attribute or its name is null. */
  function ColumnName(p: Property): (n: Option<string>)
    ensures n.Some? <==> p.column.Some? && p.column.value.name.Some?
    ensures n.Some? ==> p.column == Some(Column(n))
  {
    match p.column
    case None => None
    case Some(c) => c.name
  }

  /** The guard of the `if` in the property loop: annotated, column present in the row, writable. */
  predicate Assigns(p: Property, row: Row): (b: bool)
    ensures b <==>
      p.column.Some? && p.column.value.name.Some? && p.column.value.name.value in row && p.canWrite
  {
    ColumnName(p).Some? && ColumnName(p).value in row && p.canWrite
  }

  /** `value ?? string.Empty`. */
  function OrEmpty(v: Value): (r: Value)
    ensures r != Null
    ensures v != Null ==> r == v
    ensures v == Null ==> r == Text("")
  {
    if v.Null? then Text("") else v
  }

  /**
   * One step of the property loop for `row`: the value `SetValue` receives
   * when the guard holds (the converted cell, or the conversion's failure),
   * otherwise the property's initial value.
   */
  function BindField(row: Row, p: Property, coerce: Coercion): (r: Result<Value, ConversionError>)
    ensures !Assigns(p, row) ==> r == Success(p.initial)
    ensures Assigns(p, row) && row[ColumnName(p).value] == Null ==> r == coerce(Text(""), p.propType)
    ensures Assigns(p, row) && row[ColumnName(p).value] != Null ==> r == coerce(row[ColumnName(p).value], p.propType)
    ensures r.Failure? ==> Assigns(p, row)
  {
    if Assigns(p, row) then coerce(OrEmpty(row[ColumnName(p).value]), p.propType)
    else Success(p.initial)
  }

  /** The record `new T()` yields, before any property is assigned. */
  function NewRecord(props: seq<Property>): (r: Record)
    ensures |r| == |props|
    ensures forall j :: 0 <= j < |props| ==> r[j] == props[j].initial
  {
    seq(|props|, j requires 0 <= j < |props| => props[j].initial)
  }

  /**
   * What the local `record` holds in a property's slot after
   * `prop.SetValue(record, v)`: a class record takes `v`; a struct record is
   * boxed, the box takes `v`, and the slot keeps its initial value.
   */
  function Stored(kind: RecordKind, p: Property, v: Value): (r: Value)
    ensures kind == ReferenceType ==> r == v
    ensures kind == ValueType ==> r == p.initial
  {
    match kind
    case ReferenceType => v
    case ValueType => p.initial
  }

  /**
   * The record built from one row, as a value: it succeeds exactly when every
   * property's binding succeeds, and then a class record holds each
   * property's bound value while a struct record is still the one `new T()`
   * made; otherwise it fails with the failure of the first property, in
   * property order, whose conversion fails.
   */
  function BindRecord(row: Row, props: seq<Property>, coerce: Coercion, kind: RecordKind): (r: Result<Record, ConversionError>)
    ensures r.Success? <==> forall j :: 0 <= j < |props| ==> BindField(row, props[j], coerce).Success?
    ensures r.Success? ==> |r.value| == |props|
    ensures r.Success? && kind == ReferenceType ==>
      forall j :: 0 <= j < |props| ==> BindField(row, props[j], coerce) == Success(r.value[j])
    ensures r.Success? && kind == ValueType ==> r.value == NewRecord(props)
    ensures r.Failure? ==>
      exists k :: 0 <= k < |props| && BindField(row, props[k], coerce) == Failure(r.error) &&
        forall j :: 0 <= j < k ==> BindField(row, props[j], coerce).Success?
    decreases |props|
  {
    if props == [] then Success([])
    else
      match BindField(row, props[0], coerce)
      case Failure(e) => Failure(e)
      case Success(v) =>
        match BindRecord(row, props[1..], coerce, kind)
        case Failure(e) => Failure(e)
        case Success(rest) => Success([Stored(kind, props[0], v)] + rest)
  }

  /**
   * The per-row lambda of `ParseSheet`: create the record, walk the
   * properties, and assign each one whose guard holds. A failing conversion
   * throws out of the lambda, so no record is returned for the row. For a
   * struct the assignment lands in a boxed copy and `record` is unchanged.
   */
  method BindRow(row: Row, props: seq<Property>, coerce: Coercion, kind: RecordKind) returns (r: Result<Record, ConversionError>)
    ensures r == BindRecord(row, props, coerce, kind)
  {
    var record := NewRecord(props);
    var i := 0;
    while i < |props|
      invariant 0 <= i <= |props|
      invariant |record| == |props|
      invariant forall j :: 0 <= j < i ==> BindField(row, props[j], coerce).Success?
      invariant kind == ReferenceType ==>
        forall j :: 0 <= j < i ==> BindField(row, props[j], coerce) == Success(record[j])
      invariant kind == ValueType ==> record == NewRecord(props)
      invariant forall j :: i <= j < |props| ==> record[j] == props[j].initial
    {
      var prop := props[i];
      var columnName := ColumnName(prop);
      if columnName.Some? && columnName.value in row && prop.canWrite {
        var converted := coerce(OrEmpty(row[columnName.value]), prop.propType);
        if converted.Failure? {
          FirstFailureDecides(row, props, coerce, kind, i);
          return Failure(converted.error);
        }
        record := record[i := Stored(kind, prop, converted.value)];
      }
      i := i + 1;
    }
    r := Success(record);
    assert BindRecord(row, props, coerce, kind).value == record;
  }

  /** When every property before `i` binds and property `i` fails, the record fails with `i`'s failure. */
  lemma FirstFailureDecides(row: Row, props: seq<Property>, coerce: Coercion, kind: RecordKind, i: nat)
    requires i < |props|
    requires forall j :: 0 <= j < i ==> BindField(row, props[j], coerce).Success?
    requires BindField(row, props[i], coerce).Failure?
    ensures BindRecord(row, props, coerce, kind) == Failure(BindField(row, props[i], coerce).error)
  {
  }

  /** `.Skip(1)`: drop the first row, treated as the header; an empty sequence stays empty. */
  function SkipHeader(rows: seq<Row>): (data: seq<Row>)
    ensures |data| == if |rows| == 0 then 0 else |rows| - 1
    ensures forall i :: 0 <= i < |data| ==> data[i] == rows[i + 1]
  {
    if |rows| == 0 then [] else rows[1..]
  }

  /**
   * `.Select(...)` enumerated to the end: one record per row, in order, until
   * the first row whose record fails; that failure ends the enumeration.
   * The lemmas below state what it yields.
   */
  function Collect(data: seq<Row>, props: seq<Property>, coerce: Coercion, kind: RecordKind): (e: Enumeration)
    ensures |e.records| <= |data|
    ensures e.failure.None? ==> |e.records| == |data|
    decreases |data|
  {
    if data == [] then Enumeration([], None)
    else
      match BindRecord(data[0], props, coerce, kind)
      case Failure(err) => Enumeration([], Some(err))
      case Success(record) =>
        var rest := Collect(data[1..], props, coerce, kind);
        Enumeration([record] + rest.records, rest.failure)
  }

  /** The records `Collect` yields are those of the leading rows, in order. */
  lemma {:induction false} CollectYieldsLeadingRecords(data: seq<Row>, props: seq<Property>, coerce: Coercion, kind: RecordKind)
    ensures var e := Collect(data, props, coerce, kind);
      forall i :: 0 <= i < |e.records| ==> BindRecord(data[i], props, coerce, kind) == Success(e.records[i])
    decreases |data|
  {
    if data != [] && BindRecord(data[0], props, coerce, kind).Success? {
      CollectYieldsLeadingRecords(data[1..], props, coerce, kind);
      var e := Collect(data, props, coerce, kind);
      var rest := Collect(data[1..], props, coerce, kind);
      assert forall i :: 1 <= i < |e.records| ==> data[i] == data[1..][i - 1] && e.records[i] == rest.records[i - 1];
    }
  }

  /** A failure of `Collect` is the failure of the row right after the records it yielded. */
  lemma {:induction false} CollectFailsAtNextRow(data: seq<Row>, props: seq<Property>, coerce: Coercion, kind: RecordKind)
    ensures var e := Collect(data, props, coerce, kind);
      e.failure.Some? ==>
        |e.records| < |data| && BindRecord(data[|e.records|], props, coerce, kind) == Failure(e.failure.value)
    decreases |data|
  {
    if data != [] && BindRecord(data[0], props, coerce, kind).Success? {
      CollectFailsAtNextRow(data[1..], props, coerce, kind);
      var e := Collect(data, props, coerce, kind);
      var rest := Collect(data[1..], props, coerce, kind);
      assert e.failure.Some? ==> data[|e.records|] == data[1..][|rest.records|];
    }
  }

  /** `Collect` fails no later than any row whose record fails. */
  lemma {:induction false} CollectStopsAtFirstFailure(data: seq<Row>, props: seq<Property>, coerce: Coercion, kind: RecordKind)
    ensures var e := Collect(data, props, coerce, kind);
      forall k :: 0 <= k < |data| && BindRecord(data[k], props, coerce, kind).Failure? ==>
        e.failure.Some? && |e.records| <= k
    decreases |data|
  {
    if data != [] && BindRecord(data[0], props, coerce, kind).Success? {
      CollectStopsAtFirstFailure(data[1..], props, coerce, kind);
      assert forall k :: 1 <= k < |data| ==> data[k] == data[1..][k - 1];
    }
  }

  /**
   * `ParseSheet<T>` over the rows the reader yields for the sheet: the header
   * row is skipped and record `i` is built from row `i + 1`. Without a
   * failure there is one record per data row; with one, the records yielded
   * are those of the rows before the failing row.
   */
  function ParseSheet(rows: seq<Row>, props: seq<Property>, coerce: Coercion, kind: RecordKind): (e: Enumeration)
    ensures e.failure.None? <==> forall i :: 1 <= i < |rows| ==> BindRecord(rows[i], props, coerce, kind).Success?
    ensures e.failure.None? ==> |e.records| == if |rows| == 0 then 0 else |rows| - 1
    ensures forall i :: 0 <= i < |e.records| ==>
      i + 1 < |rows| && BindRecord(rows[i + 1], props, coerce, kind) == Success(e.records[i])
    ensures e.failure.Some? ==>
      |e.records| + 1 < |rows| && BindRecord(rows[|e.records| + 1], props, coerce, kind) == Failure(e.failure.value)
    ensures forall i :: 1 <= i < |rows| && BindRecord(rows[i], props, coerce, kind).Failure? ==>
      e.failure.Some? && |e.records| < i
  {
    var data := SkipHeader(rows);
    var e := Collect(data, props, coerce, kind);
    CollectYieldsLeadingRecords(data, props, coerce, kind);
    CollectFailsAtNextRow(data, props, coerce, kind);
    CollectStopsAtFirstFailure(data, props, coerce, kind);
    assert forall i :: 1 <= i < |rows| ==> rows[i] == data[i - 1];
    e
  }
}
