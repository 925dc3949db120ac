# ExcelParser record binding, modelled in Dafny

`ExcelParser.ParseSheet<T>` turns the rows of one worksheet into typed records.
A third-party reader yields each row as a mapping from column key to cell value.
`ParseSheet<T>` drops the first row, which it treats as the header.
For each remaining row it creates a record with `new T()`.
It then walks the public properties of `T`.
A property is assigned only when three things hold: it carries a `Column` attribute with a non-null `Name`, that name is a key of the row, and the property is writable.
The attribute's `Name` is its constructor argument, unless the attribute use sets it with a named `Name = ...` argument.
Before the value is converted to the property's type with `Convert.ChangeType`, a null value is replaced by the empty string.
The result is a lazy sequence, and a failed conversion throws while that row's record is being produced.
`T` may be a class or a struct, since both satisfy `new()`.
For a struct, `SetValue(record, ...)` boxes `record` and writes into the box.
The conversions still run and can still throw, but every record yielded is the one `new T()` made.

The model has three files:

- `wrappers.dfy`: the `Option` and `Result` types.
- `excel_parser.dfy` (module `ExcelParser`): the data model and the operations.
  - Cell values are `Value`, with `Null` for C#'s null.
  - A row is a `map<string, Value>`.
  - The `Column` attribute is a datatype whose `name` is the attribute's final `Name`, which may be null: the constructor's argument, or a named `Name = ...` argument when one is given.
  - `RecordKind` says whether `T` is a class (`ReferenceType`) or a struct (`ValueType`).
  - Each property of `T` is a `Property` descriptor: name, optional `Column`, `canWrite`, declared type, and the value `new T()` leaves in it.
  - A record is the sequence of its property values, in property order.
  - `Convert.ChangeType` is the parameter `coerce`, a function that may fail.
  - The per-row lambda is the method `BindRow`, with a loop over the properties. It is proved equal to the value-level specification `BindRecord`.
  - The LINQ pipeline is the function `ParseSheet`.
  - The lazy result is modelled as what enumerating it to its end observes: the records yielded, then the exception that stopped it, if any (`Enumeration`).
- `parse_sheet_properties.dfy` (module `ParseSheetProperties`): lemmas about which properties are written and with what, how a failed conversion ends the enumeration, and how rows contribute independently.

The `Column` attribute is declared usable on fields as well as on properties.
`ParseSheet<T>` only reads `typeof(T).GetProperties()`, so an annotated field is never bound.
The model's descriptors are the properties only.

## Model

| member | source | states |
|---|---|---|
| `ExcelParser.ColumnName` | ExcelParser.cs:26 | The looked-up column name is present exactly when the property has a `Column` attribute with a non-null `Name`, and it is then that attribute's name. |
| `ExcelParser.Assigns` | ExcelParser.cs:27 | The guard holds exactly when the property has a `Column` attribute with a non-null name, that name is a key of the row, and the property is writable. |
| `ExcelParser.OrEmpty` | ExcelParser.cs:29 | The value handed to the conversion is never null: a null cell becomes the empty string, and any other value passes unchanged. |
| `ExcelParser.BindField` | ExcelParser.cs:26-29 | One loop step: without the guard the property keeps its initial value and cannot fail. With it, the value is `coerce` of the row's value for the column name, or of `""` when that value is null. Only a guarded property can fail. |
| `ExcelParser.Stored` | ExcelParser.cs:29 | After `SetValue(record, v)` the local record's slot holds `v` for a class. For a struct it keeps its initial value, because the write lands in a boxed copy. |
| `ExcelParser.NewRecord` | ExcelParser.cs:22 | The record `new T()` yields has one slot per property, each holding that property's initial value. |
| `ExcelParser.BindRecord` | ExcelParser.cs:22-33 | A row's record succeeds iff every property's `BindField` step succeeds. On success a class record holds each property's bound value, and a struct record is exactly `new T()`'s record. On failure it fails with the failure of the first failing property in property order. |
| `ExcelParser.BindRow` | ExcelParser.cs:20-34 | The imperative loop returns exactly `BindRecord`'s result. The loop creates the record, walks the properties, assigns under the guard (into a boxed copy for a struct) and throws on a failed conversion. |
| `ExcelParser.SkipHeader` | ExcelParser.cs:19 | `Skip(1)` keeps max(0, n-1) rows, and data row i is input row i+1. |
| `ExcelParser.Collect` | ExcelParser.cs:20-34 | Enumerating `Select` to its end yields at most one record per row, and exactly one per row when nothing fails. |
| `ExcelParser.CollectYieldsLeadingRecords` | ExcelParser.cs:20-34 | The records yielded are those of the leading rows, in input order. |
| `ExcelParser.CollectFailsAtNextRow` | ExcelParser.cs:29 | A failure ending the enumeration is the failure of the row right after the last record yielded. |
| `ExcelParser.CollectStopsAtFirstFailure` | ExcelParser.cs:29 | The enumeration fails, and yields nothing from that row on, once a row's record fails. |
| `ExcelParser.ParseSheet` | ExcelParser.cs:14-35 | With no failure, the output has max(0, \|rows\|-1) records. Record i is the record of row i+1. A failure is the failure of row \|records\|+1, which is the first data row whose record fails. There is no failure iff every row after the header binds. |
| `ParseSheetProperties.RecordField` | ExcelParser.cs:24-31 | In every yielded record, each guarded property's conversion succeeded. A class record holds the converted cell when the guard holds and the initial value otherwise. A struct record keeps every initial value. |
| `ParseSheetProperties.UnannotatedNeverWritten` | ExcelParser.cs:26-27 | A property with no `Column` attribute, or one with a null name, keeps its initial value. |
| `ParseSheetProperties.AbsentColumnNeverWritten` | ExcelParser.cs:27 | A property whose column name is not a key of the row keeps its initial value. |
| `ParseSheetProperties.ReadOnlyNeverWritten` | ExcelParser.cs:27 | A non-writable property keeps its initial value, even when it is annotated and its column is present. |
| `ParseSheetProperties.WrittenReceivesConversion` | ExcelParser.cs:26-29 | Take a writable property whose attribute's final `Name` is a key of the row. Exactly that key's value is converted, or `""` when the value is null, and the conversion succeeded. A class record holds the result; a struct record keeps its initial value. |
| `ParseSheetProperties.ConversionFailureEndsEnumeration` | ExcelParser.cs:29 | A failed conversion of a written property of data row i makes the enumeration fail before row i's record is yielded. |
| `ParseSheetProperties.NothingAssignedYieldsNewRecord` | ExcelParser.cs:22 | A row for which no guard holds yields exactly the record `new T()` produced. |
| `ParseSheetProperties.KindDoesNotDecideFailure` | ExcelParser.cs:22-33 | Whether a row's record fails, and with which failure, is the same for a class and a struct. |
| `ParseSheetProperties.StructRecordsStayNew` | ExcelParser.cs:20-34 | For a struct, enumerating the rows fails exactly as for a class and yields as many records, each equal to `new T()`'s record. |
| `ParseSheetProperties.StructSheetRecordsStayNew` | ExcelParser.cs:14-35 | The same holds for `ParseSheet` as a whole: a struct sheet has the class sheet's failure and record count, and every record is untouched. |
| `ParseSheetProperties.HeaderIgnored` | ExcelParser.cs:19 | The content of the first row never affects the result. |
| `ParseSheetProperties.CollectAppend` | ExcelParser.cs:20-34 | Binding a + b is binding a and then, unless a failed, binding b from scratch. No state carries over from one row's record to the next. |
| `ParseSheetProperties.AppendedRowsExtendEnumeration` | ExcelParser.cs:16-34 | Appending rows to a sheet keeps what was enumerated before. After a failure nothing changes; otherwise the new rows' records follow. |

## Left out

- Reading the workbook (`stream.Query(sheetName:)`) and the `Cast<IDictionary<string, object>>()`: this is I/O done by the MiniExcel library. Its output, the rows, is the model's input.
- `Convert.ChangeType`: its conversion table belongs to .NET and is not visible. It is the abstract parameter `coerce`, which may fail with `InvalidCast`, `BadFormat` or `Overflow`.
- Reflection (`GetProperties`, `GetCustomAttribute`, `CanWrite`, `SetValue`): the properties are given as an explicit descriptor list. Static and indexed properties are not modelled. `SetValue`'s own failures (a converted value of the wrong type) are not modelled either.
- The record is a value holding one slot per property, not a heap object. This means a fresh `new T()` per row holds by construction. Computed getters are not modelled. For a struct, the boxed copy `SetValue` writes into is dropped at once, so the model keeps no trace of it.
- Lazy evaluation and restartability of the result are not modelled. The model gives what a single enumeration to the end observes. A consumer that stops early sees a prefix of `records`.
- Row-key lookup is exact map membership. The reader's dictionary comparer is not visible and is assumed ordinal.
- Cell values: `Value` lists a few kinds of object (text, number, boolean, date). The model only ever tests for `Null`, so the other kinds just stand for "some object". A `double` is shown as a `real`, so NaN, infinities and -0.0 cannot be written down. Date ticks are unbounded, and other object types the reader may return are not listed. None of this changes a proved property.
- `coerce` is one fixed function for the whole enumeration. `Convert.ChangeType` reads the current culture, which could in principle change between rows; that is not modelled.
- NewRecord: `new T()` is modelled as returning the same initial values on every call and never throwing: each property's `initial` is fixed for the whole sheet. Initializers that differ per call cannot be expressed, such as `= Guid.NewGuid()`, `= DateTime.Now` or `= ++counter` on a static counter. Neither can a constructor that throws, which would end the enumeration at the first data row. So `NothingAssignedYieldsNewRecord`, `StructRecordsStayNew`, `StructSheetRecordsStayNew` and the "from scratch" reading of `CollectAppend` hold only for record types whose parameterless constructor is deterministic and does not throw.
