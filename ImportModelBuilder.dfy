/** SqlServerImportModelBuilder: from the column descriptors a table file stored and
 *  the schema of the table to import into, the serialisers that read each stored
 *  column and the target fields each column's values go to. */
module ImportModelBuilders {
  import opened Wrappers
  import opened Bytes
  import opened OrdinalText
  import ColumnFlags
  import ColumnDataType
  import opened ColumnDescriptors
  import opened Columns
  import opened DecimalPacking
  import opened SerialiserValidation
  import opened Schema
  import opened TableIdentifiers
  import opened ColumnDefinitions
  import opened FieldCorrelation
  import ExportModelBuilders

  // ---------------------------------------------------------------- InterpretDescriptor

  /** The stored data types InterpretDescriptor has a column definition for. */
  predicate ImportableType(t: ColumnDataType.Tag)
  {
    t in {ColumnDataType.SignedInteger, ColumnDataType.UnsignedInteger, ColumnDataType.FloatingPoint,
          ColumnDataType.String, ColumnDataType.FixedLengthString, ColumnDataType.DecimalFloatingPoint}
  }

  /** The lengths InterpretDescriptor accepts for a stored type: a signed integer of 2,
   *  4 or 8 bytes, a one-byte unsigned integer, a float of one to eight bytes, any
   *  length for a string, a positive one for a fixed-length string, and whole words
   *  that can be allocated for a decimal. */
  predicate ImportableLength(t: ColumnDataType.Tag, n: int32)
  {
    if t == ColumnDataType.SignedInteger then n in {2, 4, 8}
    else if t == ColumnDataType.UnsignedInteger then n == 1
    else if t == ColumnDataType.FloatingPoint then 0 < n <= 8
    else if t == ColumnDataType.FixedLengthString then n > 0
    else if t == ColumnDataType.DecimalFloatingPoint then n % 4 == 0 && n >= 0
    else true
  }

  /** InterpretDescriptor: the column definition for a stored descriptor, given the
   *  descriptor's flags.  Single-byte signed integers, longer unsigned ones, floats
   *  of no length or more than eight bytes and variable-length byte arrays throw
   *  NotSupportedException; fixed-length byte arrays, Invalid and every other tag
   *  (Guid, Time, DateTime, DateTimeOffset among them) throw
   *  ArgumentOutOfRangeException; the fixed-length string and decimal definitions'
   *  own constructors refuse a bad length. */
  function InterpretDescriptor(d: ColumnDescriptor): (r: Result<Definition>)
    ensures r.Success? ==> r.value.DataType() == d.storedDataType && r.value.Flags() == ColumnFlags.Masked(d.columnFlags)
  {
    var t := d.storedDataType;
    var n := d.length;
    var flags := d.columnFlags;
    if t == ColumnDataType.SignedInteger then
      if n == 2 then Success(Shown(SmallIntColumn(flags)))
      else if n == 4 then Success(IntColumn(flags))
      else if n == 8 then Success(BigIntColumn(flags))
      else Failure(NotSupported)
    else if t == ColumnDataType.UnsignedInteger then
      if n == 1 then Success(Shown(TinyIntColumn(flags))) else Failure(NotSupported)
    else if t == ColumnDataType.FloatingPoint then
      if n <= 0 then Failure(NotSupported)
      else if n <= 4 then Success(Shown(SinglePrecisionColumn(flags)))
      else if n <= 8 then Success(Shown(DoublePrecisionColumn(flags)))
      else Failure(NotSupported)
    else if t == ColumnDataType.String then Success(Shown(VariableLengthStringColumn(flags)))
    else if t == ColumnDataType.VariableLengthBytes then Failure(NotSupported)
    else if t == ColumnDataType.FixedLengthString then
      var c :- NewFixedLengthANSIStringColumn(n, flags);
      Success(Shown(c))
    else if t == ColumnDataType.DecimalFloatingPoint then
      var c :- DecimalColumnForBufferSize(n, flags);
      Success(Shown(c))
    else Failure(ArgumentOutOfRange)
  }

  /** InterpretDescriptor accepts exactly the importable types at the lengths their
   *  definitions take; the definition stores the descriptor's length unless it is a
   *  float (four or eight bytes) or a string (variable).  The refusals are
   *  NotSupportedException for variable-length bytes and for unsupported integer and
   *  float lengths, ArgumentOutOfRangeException for the other unimportable types and
   *  for a fixed-length string of no length, and for a decimal the packer's
   *  ArgumentException (not whole words) or the buffer's OverflowException
   *  (negative). */
  lemma InterpretDescriptorOutcome(d: ColumnDescriptor)
    ensures var r := InterpretDescriptor(d);
      (r.Success? <==> ImportableType(d.storedDataType) && ImportableLength(d.storedDataType, d.length))
      && (r.Success? && d.storedDataType != ColumnDataType.FloatingPoint && d.storedDataType != ColumnDataType.String ==>
            r.value.Length() == d.length as int)
      && (r.Success? && d.storedDataType == ColumnDataType.FloatingPoint ==>
            r.value.Length() == if d.length <= 4 then 4 else 8)
      && (r.Failure? && !ImportableType(d.storedDataType) ==>
            r.error == if d.storedDataType == ColumnDataType.VariableLengthBytes then NotSupported else ArgumentOutOfRange)
      && (r.Failure? && ImportableType(d.storedDataType) ==>
            r.error == if d.storedDataType == ColumnDataType.FixedLengthString then ArgumentOutOfRange
                       else if d.storedDataType != ColumnDataType.DecimalFloatingPoint then NotSupported
                       else if d.length % 4 != 0 then Argument else Overflow)
  {
    var t := d.storedDataType;
    if t == ColumnDataType.SignedInteger {
    } else if t == ColumnDataType.UnsignedInteger {
    } else if t == ColumnDataType.FloatingPoint {
    } else if t == ColumnDataType.String {
    } else if t == ColumnDataType.FixedLengthString {
    } else if t == ColumnDataType.DecimalFloatingPoint {
    } else {
      assert !ImportableType(t);
    }
  }

  /** A definition InterpretDescriptor chose passes the validation against its own
   *  descriptor exactly when the descriptor has no unknown flag bits, a float is
   *  stored in exactly four or eight bytes and a decimal in at least one word. */
  lemma InterpretedValidation(d: ColumnDescriptor)
    requires InterpretDescriptor(d).Success?
    ensures ValidateAgainst(InterpretDescriptor(d).value.Info(), d).Success? <==>
      ColumnFlags.UnknownFlags(d.columnFlags) == 0
      && (d.storedDataType == ColumnDataType.FloatingPoint ==> d.length in {4, 8})
      && (d.storedDataType == ColumnDataType.DecimalFloatingPoint ==> d.length > 0)
  {
    var s := InterpretDescriptor(d).value;
    var t := d.storedDataType;
    InterpretDescriptorOutcome(d);
    assert s.Flags() == d.columnFlags <==> ColumnFlags.UnknownFlags(d.columnFlags) == 0 by {
      assert s.Flags() == ColumnFlags.KnownFlags(d.columnFlags);
    }
    DefinitionsValidate(s);
    if t == ColumnDataType.String {
      assert !FixedLengthTag(t);
    } else {
      assert FixedLengthTag(t);
      if t == ColumnDataType.DecimalFloatingPoint {
        assert s.Shown? && s.codec.DecimalColumn?;
      }
    }
  }

  /** What import makes of what export wrote: for every field the export builder
   *  interprets, InterpretDescriptor accepts the descriptor the export recorded
   *  exactly when its data type is an integer, a float, a string or a decimal, and
   *  then chooses a serialiser with the same data type, length and flags that
   *  validates against that descriptor, a decimal one holding at least as many
   *  digits.  A Guid, time, date or fixed-length byte column is refused with
   *  ArgumentOutOfRangeException and a variable-length byte column with
   *  NotSupportedException. */
  lemma ImportOfExport(e: ExportModelBuilders.ExportField)
    requires ExportModelBuilders.InterpretField(e.field).Success?
    requires e.serialiser == ExportModelBuilders.InterpretField(e.field).value
    ensures var d := ExportModelBuilders.Descriptor(e);
      var r := InterpretDescriptor(d);
      (r.Success? <==> ImportableType(e.serialiser.DataType()))
      && (r.Success? ==>
            r.value.Info() == e.serialiser.Info()
            && ValidateAgainst(r.value.Info(), d).Success?
            && (r.value.Shown? && r.value.codec.DecimalColumn? ==>
                  e.serialiser.Shown? && e.serialiser.codec.DecimalColumn?
                  && r.value.codec.digitCount >= e.serialiser.codec.digitCount))
      && (r.Failure? ==>
            r.error == if e.serialiser.DataType() == ColumnDataType.VariableLengthBytes then NotSupported else ArgumentOutOfRange)
  {
    var d := ExportModelBuilders.Descriptor(e);
    ExportModelBuilders.ValidatesAgainstOwnDescriptor(e);
    if ImportableType(e.serialiser.DataType()) {
      ExportAccepted(e);
      var r := InterpretDescriptor(d);
      if r.value.Shown? && r.value.codec.DecimalColumn? {
        ExportDecimalRoom(e);
      }
    } else {
      ExportRefused(e);
    }
  }

  /** The accepted half of ImportOfExport: the chosen definition describes the
   *  column as the export's did. */
  lemma ExportAccepted(e: ExportModelBuilders.ExportField)
    requires ExportModelBuilders.InterpretField(e.field).Success?
    requires e.serialiser == ExportModelBuilders.InterpretField(e.field).value
    requires ImportableType(e.serialiser.DataType())
    ensures InterpretDescriptor(ExportModelBuilders.Descriptor(e)).Success?
    ensures InterpretDescriptor(ExportModelBuilders.Descriptor(e)).value.Info() == e.serialiser.Info()
  {
    ExportModelBuilders.InterpretedFieldShape(e.field);
  }

  /** The decimal part of ImportOfExport: the packer import chooses for the length
   *  export recorded holds at least the digits export packed. */
  lemma ExportDecimalRoom(e: ExportModelBuilders.ExportField)
    requires ExportModelBuilders.InterpretField(e.field).Success?
    requires e.serialiser == ExportModelBuilders.InterpretField(e.field).value
    requires InterpretDescriptor(ExportModelBuilders.Descriptor(e)).Success?
    requires var v := InterpretDescriptor(ExportModelBuilders.Descriptor(e)).value; v.Shown? && v.codec.DecimalColumn?
    ensures e.serialiser.Shown? && e.serialiser.codec.DecimalColumn?
    ensures InterpretDescriptor(ExportModelBuilders.Descriptor(e)).value.codec.digitCount >= e.serialiser.codec.digitCount
  {
    var s := e.serialiser;
    var d := ExportModelBuilders.Descriptor(e);
    var v := InterpretDescriptor(d).value;
    ExportModelBuilders.InterpretedFieldShape(e.field);
    assert s.DataType() == ColumnDataType.DecimalFloatingPoint;
    assert s.Shown? && s.codec.DecimalColumn?;
    assert v.codec.digitCount == DigitCountOfBuffer(d.length);
    var p := e.field.dataType.precision as int;
    if e.field.dataType.sqlDbType.Decimal? && p >= 1 {
      DigitCountOfByteBufferSize(p);
    }
  }

  /** The refused half of ImportOfExport. */
  lemma ExportRefused(e: ExportModelBuilders.ExportField)
    requires ExportModelBuilders.InterpretField(e.field).Success?
    requires e.serialiser == ExportModelBuilders.InterpretField(e.field).value
    requires !ImportableType(e.serialiser.DataType())
    ensures InterpretDescriptor(ExportModelBuilders.Descriptor(e)).Failure?
    ensures InterpretDescriptor(ExportModelBuilders.Descriptor(e)).error ==
      if e.serialiser.DataType() == ColumnDataType.VariableLengthBytes then NotSupported else ArgumentOutOfRange
  {
  }

  // ---------------------------------------------------------------- import fields

  /** A target field the import can write: not a timestamp (rowversion) and not
   *  computed. */
  predicate Writable(f: Field)
  {
    !f.dataType.sqlDbType.Timestamp? && !f.isComputed
  }

  /** The writable target fields, in their order. */
  function WritableFields(fs: seq<Field>): (r: seq<Field>)
    ensures forall f :: f in r <==> f in fs && Writable(f)
  {
    if fs == [] then []
    else (if Writable(fs[0]) then [fs[0]] else []) + WritableFields(fs[1..])
  }

  /** ImportField: a stored column's position, its correlated target fields, its
   *  descriptor and its definition. */
  datatype ImportField = ImportField(index: nat, targetFields: seq<Field>, descriptor: ColumnDescriptor, definition: Definition)

  /** CreateImportField: interpret the descriptor, validate the serialiser against it
   *  and correlate it with the writable target fields. */
  function CreateImportField(d: ColumnDescriptor, index: nat, writable: seq<Field>): (r: Result<ImportField>)
    ensures r.Success? <==> InterpretDescriptor(d).Success? && ValidateAgainst(InterpretDescriptor(d).value.Info(), d).Success?
    ensures r.Success? ==> r.value == ImportField(index, GetTargetFields(d, writable), d, InterpretDescriptor(d).value)
  {
    var definition :- InterpretDescriptor(d);
    var _ :- ValidateAgainst(definition.Info(), d);
    Success(ImportField(index, GetTargetFields(d, writable), d, definition))
  }

  /** Whether a stored column is accepted: it has a definition, and the definition's
   *  serialiser validates against it. */
  predicate Accepted(d: ColumnDescriptor)
  {
    InterpretDescriptor(d).Success? && ValidateAgainst(InterpretDescriptor(d).value.Info(), d).Success?
  }

  /** The exception CreateImportField throws for a column it does not accept. */
  function Rejection(d: ColumnDescriptor): Error
    requires !Accepted(d)
  {
    if InterpretDescriptor(d).Failure? then InterpretDescriptor(d).error
    else ValidateAgainst(InterpretDescriptor(d).value.Info(), d).error
  }

  /** `sourceColumns.Select(CreateImportField)` from position `start` on, failing with
   *  the first column's exception. */
  function CreateImportFields(ds: seq<ColumnDescriptor>, start: nat, writable: seq<Field>): Result<seq<ImportField>>
  {
    if ds == [] then Success([])
    else
      var f :- CreateImportField(ds[0], start, writable);
      var rest :- CreateImportFields(ds[1..], start + 1, writable);
      Success([f] + rest)
  }

  /** The import fields are the columns, numbered from `start`, each with its
   *  definition and correlated targets; the first column that is not accepted decides
   *  the exception. */
  lemma {:induction false} ImportFieldsCreated(ds: seq<ColumnDescriptor>, start: nat, writable: seq<Field>)
    ensures var r := CreateImportFields(ds, start, writable);
      (r.Success? <==> forall i :: 0 <= i < |ds| ==> Accepted(ds[i]))
      && (r.Success? ==> |r.value| == |ds| && forall i :: 0 <= i < |ds| ==>
            r.value[i] == ImportField(start + i, GetTargetFields(ds[i], writable), ds[i], InterpretDescriptor(ds[i]).value))
      && (r.Failure? ==>
            exists i :: 0 <= i < |ds| && !Accepted(ds[i]) && r.error == Rejection(ds[i])
              && (forall k :: 0 <= k < i ==> Accepted(ds[k])))
  {
    if ds != [] {
      ImportFieldsCreated(ds[1..], start + 1, writable);
      var r := CreateImportFields(ds, start, writable);
      if Accepted(ds[0]) && r.Failure? {
        var rest := CreateImportFields(ds[1..], start + 1, writable);
        var i :| 0 <= i < |ds| - 1 && !Accepted(ds[1..][i]) && rest.error == Rejection(ds[1..][i])
            && (forall k :: 0 <= k < i ==> Accepted(ds[1..][k]));
        assert !Accepted(ds[i + 1]);
        forall k | 0 < k < i + 1
          ensures Accepted(ds[k])
        {
          assert ds[k] == ds[1..][k - 1];
        }
      }
    }
  }

  // ---------------------------------------------------------------- allocation

  /** `fieldsModel.SelectMany(f => f.TargetFields)`. */
  function AllocatedFields(fs: seq<ImportField>): seq<Field>
  {
    if fs == [] then [] else fs[0].targetFields + AllocatedFields(fs[1..])
  }

  /** A field is allocated exactly when some import field targets it. */
  lemma {:induction false} AllocatedIn(fs: seq<ImportField>, f: Field)
    ensures f in AllocatedFields(fs) <==> exists k :: 0 <= k < |fs| && f in fs[k].targetFields
  {
    if fs != [] {
      AllocatedIn(fs[1..], f);
      if f in AllocatedFields(fs[1..]) {
        var k :| 0 <= k < |fs| - 1 && f in fs[1..][k].targetFields;
        assert f in fs[k + 1].targetFields;
      }
      if exists k :: 0 <= k < |fs| && f in fs[k].targetFields {
        var k :| 0 <= k < |fs| && f in fs[k].targetFields;
        if k > 0 {
          assert fs[1..][k - 1] == fs[k];
        }
      }
    }
  }

  /** `writableFields.Except(allocated)`: the writable fields no column took, each
   *  once, in the order of their first appearance. */
  function Unallocated(writable: seq<Field>, takenFields: seq<Field>): (r: seq<Field>)
    ensures forall f :: f in r <==> f in writable && f !in takenFields
    ensures forall i, j :: 0 <= i < j < |r| ==> r[i] != r[j]
  {
    Except(writable, takenFields)
  }

  /** Except's walk: each field not yet seen is kept, and then counts as seen. */
  function Except(fields: seq<Field>, seen: seq<Field>): (r: seq<Field>)
    ensures forall f :: f in r <==> f in fields && f !in seen
    ensures forall i, j :: 0 <= i < j < |r| ==> r[i] != r[j]
  {
    if fields == [] then []
    else if fields[0] in seen then Except(fields[1..], seen)
    else
      var rest := Except(fields[1..], seen + [fields[0]]);
      assert fields[0] !in rest;
      var r := [fields[0]] + rest;
      assert forall j :: 0 < j < |r| ==> r[j] == rest[j - 1];
      r
  }

  // ---------------------------------------------------------------- meta infos

  /** ColumnMetaInfo: the target field's name, the stored column's position, and the
   *  CLR type of its values with that type's name in lower case as the data type
   *  name (SelectCompatibleDataTypeName). */
  datatype ColumnMetaInfo = ColumnMetaInfo(name: Option<string>, sourceIndex: nat, fieldType: string, dataTypeName: string)

  /** CreateMetaInfo. */
  function CreateMetaInfo(target: Field, f: ImportField): (r: ColumnMetaInfo)
    ensures r.name == target.name && r.sourceIndex == f.index
    ensures r.dataTypeName == Lowered(r.fieldType) && r.fieldType == f.definition.DotNetTypeName()
  {
    var typeName := f.definition.DotNetTypeName();
    ColumnMetaInfo(target.name, f.index, typeName, Lowered(typeName))
  }

  /** The meta infos of one column, one per target field, in the targets' order. */
  function FieldMetaInfos(f: ImportField): (r: seq<ColumnMetaInfo>)
    ensures |r| == |f.targetFields| && forall k :: 0 <= k < |r| ==> r[k] == CreateMetaInfo(f.targetFields[k], f)
  {
    seq(|f.targetFields|, k requires 0 <= k < |f.targetFields| => CreateMetaInfo(f.targetFields[k], f))
  }

  /** `fieldsModel.SelectMany(f => f.TargetFields.Select(t => CreateMetaInfo(t, f)))`:
   *  the columns in order, each with its targets in order. */
  function MetaInfos(fs: seq<ImportField>): seq<ColumnMetaInfo>
  {
    if fs == [] then [] else FieldMetaInfos(fs[0]) + MetaInfos(fs[1..])
  }

  /** A meta info is among one column's exactly when it is made of one of that
   *  column's targets. */
  lemma FieldMetaInfosIn(f: ImportField, m: ColumnMetaInfo)
    ensures m in FieldMetaInfos(f) <==> exists t :: t in f.targetFields && m == CreateMetaInfo(t, f)
  {
    var ms := FieldMetaInfos(f);
    if m in ms {
      var j :| 0 <= j < |ms| && ms[j] == m;
      assert f.targetFields[j] in f.targetFields;
    }
    if exists t :: t in f.targetFields && m == CreateMetaInfo(t, f) {
      var t :| t in f.targetFields && m == CreateMetaInfo(t, f);
      var j :| 0 <= j < |f.targetFields| && f.targetFields[j] == t;
      assert ms[j] == m;
    }
  }

  /** A meta info is among those of the import fields exactly when it is among
   *  those of one of them. */
  lemma {:induction false} MetaInfosIn(fs: seq<ImportField>, m: ColumnMetaInfo)
    ensures m in MetaInfos(fs) <==> exists k :: 0 <= k < |fs| && m in FieldMetaInfos(fs[k])
  {
    if fs != [] {
      MetaInfosIn(fs[1..], m);
      if m in MetaInfos(fs[1..]) {
        var k :| 0 <= k < |fs| - 1 && m in FieldMetaInfos(fs[1..][k]);
        assert fs[1..][k] == fs[k + 1];
      }
      if exists k :: 0 <= k < |fs| && m in FieldMetaInfos(fs[k]) {
        var k :| 0 <= k < |fs| && m in FieldMetaInfos(fs[k]);
        if k > 0 {
          assert fs[1..][k - 1] == fs[k];
        }
      }
    }
  }

  // ---------------------------------------------------------------- Build

  /** ImportModel. */
  datatype ImportModel = ImportModel(table: TableIdentifier, columnSerialisers: seq<Definition>, columnMetaInfos: seq<ColumnMetaInfo>)

  /** `fieldsModel.Select(d => d.Serialiser)`. */
  function Serialisers(fs: seq<ImportField>): (r: seq<Definition>)
    ensures |r| == |fs| && forall k :: 0 <= k < |fs| ==> r[k] == fs[k].definition
  {
    seq(|fs|, k requires 0 <= k < |fs| => fs[k].definition)
  }

  /** Build: the import fields first (the first column without an accepted serialiser
   *  throws), then the strict correlator's check that every writable target field
   *  was taken (UncorrelatedFieldsException), then the table's identifier (a null
   *  name throws ArgumentNullException). */
  function Build(t: Table, sourceColumns: seq<ColumnDescriptor>): (r: Result<ImportModel>)
  {
    var writable := WritableFields(t.fields);
    var fields :- CreateImportFields(sourceColumns, 0, writable);
    var unallocated := Unallocated(writable, AllocatedFields(fields));
    var _ :- if unallocated != [] then OnUnallocatedTargetFields(unallocated) else Success(());
    var id :- Identify(t);
    Success(ImportModel(id, Serialisers(fields), MetaInfos(fields)))
  }

  /** A writable target field some stored column correlates with. */
  predicate Taken(f: Field, sourceColumns: seq<ColumnDescriptor>)
  {
    exists i :: 0 <= i < |sourceColumns| && Correlates(f, sourceColumns[i])
  }

  /** Among the writable fields, a column took exactly the fields some column
   *  correlates with. */
  lemma AllocatedIffTaken(writable: seq<Field>, sourceColumns: seq<ColumnDescriptor>, fields: seq<ImportField>, f: Field)
    requires |fields| == |sourceColumns|
    requires forall i :: 0 <= i < |fields| ==> fields[i].targetFields == GetTargetFields(sourceColumns[i], writable)
    requires f in writable
    ensures f in AllocatedFields(fields) <==> Taken(f, sourceColumns)
  {
    AllocatedIn(fields, f);
    if f in AllocatedFields(fields) {
      var k :| 0 <= k < |fields| && f in fields[k].targetFields;
      TargetFieldsMatch(sourceColumns[k], writable);
    }
    if Taken(f, sourceColumns) {
      var i :| 0 <= i < |sourceColumns| && Correlates(f, sourceColumns[i]);
      TargetFieldsMatch(sourceColumns[i], writable);
      assert f in fields[i].targetFields;
    }
  }

  /** A sequence with no element is empty. */
  lemma NothingIn(s: seq<Field>)
    ensures (forall f :: f !in s) ==> s == []
  {
    if s != [] {
      assert s[0] in s;
    }
  }

  /** Build succeeds exactly when every stored column is accepted, every writable
   *  target field correlates with some stored column, and the table has a name; it
   *  fails with the first rejected column's exception, else with
   *  UncorrelatedFieldsException, else with ArgumentNullException. */
  lemma BuildOutcome(t: Table, sourceColumns: seq<ColumnDescriptor>)
    ensures var r := Build(t, sourceColumns);
      var allAccepted := forall i :: 0 <= i < |sourceColumns| ==> Accepted(sourceColumns[i]);
      var allTaken := forall f :: f in t.fields && Writable(f) ==> Taken(f, sourceColumns);
      (r.Success? <==> allAccepted && allTaken && t.name.Some?)
      && (!allAccepted ==>
            exists i :: 0 <= i < |sourceColumns| && !Accepted(sourceColumns[i])
              && (forall k :: 0 <= k < i ==> Accepted(sourceColumns[k])) && r == Failure(Rejection(sourceColumns[i])))
      && (allAccepted && !allTaken ==> r == Failure(UncorrelatedFields))
      && (allAccepted && allTaken && t.name.None? ==> r == Failure(ArgumentNull))
  {
    var writable := WritableFields(t.fields);
    ImportFieldsCreated(sourceColumns, 0, writable);
    var created := CreateImportFields(sourceColumns, 0, writable);
    if created.Success? {
      var fields := created.value;
      var takenFields := AllocatedFields(fields);
      forall f | f in writable
        ensures f in takenFields <==> Taken(f, sourceColumns)
      {
        AllocatedIffTaken(writable, sourceColumns, fields, f);
      }
      var unallocated := Unallocated(writable, takenFields);
      if forall f :: f in t.fields && Writable(f) ==> Taken(f, sourceColumns) {
        NothingIn(unallocated);
      } else {
        var f :| f in t.fields && Writable(f) && !Taken(f, sourceColumns);
        assert f in unallocated;
      }
    }
  }

  /** The import fields of a successful Build. */
  lemma BuildFields(t: Table, sourceColumns: seq<ColumnDescriptor>) returns (fields: seq<ImportField>)
    requires Build(t, sourceColumns).Success?
    ensures var m := Build(t, sourceColumns).value;
      m.columnSerialisers == Serialisers(fields) && m.columnMetaInfos == MetaInfos(fields)
      && Identify(t) == Success(m.table)
    ensures |fields| == |sourceColumns|
    ensures forall i :: 0 <= i < |sourceColumns| ==>
      Accepted(sourceColumns[i]) && fields[i] == ImportField(i, GetTargetFields(sourceColumns[i], WritableFields(t.fields)), sourceColumns[i], InterpretDescriptor(sourceColumns[i]).value)
  {
    var writable := WritableFields(t.fields);
    ImportFieldsCreated(sourceColumns, 0, writable);
    fields := CreateImportFields(sourceColumns, 0, writable).value;
  }

  /** A successful Build has one serialiser per stored column, in the columns'
   *  order, each the column's definition and validated against it, and the table is
   *  the target table's identifier. */
  lemma BuildSerialisers(t: Table, sourceColumns: seq<ColumnDescriptor>)
    requires Build(t, sourceColumns).Success?
    ensures var m := Build(t, sourceColumns).value;
      Identify(t) == Success(m.table)
      && |m.columnSerialisers| == |sourceColumns|
      && forall i :: 0 <= i < |sourceColumns| ==>
            InterpretDescriptor(sourceColumns[i]) == Success(m.columnSerialisers[i])
            && ValidateAgainst(m.columnSerialisers[i].Info(), sourceColumns[i]).Success?
  {
    var fields := BuildFields(t, sourceColumns);
  }

  /** In a successful Build a meta info names a target field with a stored column's
   *  position exactly when a writable field of that name correlates with that
   *  column. */
  lemma BuildMetaInfoFor(t: Table, sourceColumns: seq<ColumnDescriptor>, target: Field, i: nat)
    requires Build(t, sourceColumns).Success?
    ensures (exists mi :: mi in Build(t, sourceColumns).value.columnMetaInfos && mi.name == target.name && mi.sourceIndex == i) <==>
      (i < |sourceColumns| && exists f :: f in t.fields && Writable(f) && f.name == target.name && Correlates(f, sourceColumns[i]))
  {
    var writable := WritableFields(t.fields);
    var fields := BuildFields(t, sourceColumns);
    var m := Build(t, sourceColumns).value;
    if exists mi :: mi in m.columnMetaInfos && mi.name == target.name && mi.sourceIndex == i {
      var mi :| mi in m.columnMetaInfos && mi.name == target.name && mi.sourceIndex == i;
      MetaInfosIn(fields, mi);
      var k :| 0 <= k < |fields| && mi in FieldMetaInfos(fields[k]);
      FieldMetaInfosIn(fields[k], mi);
      var f :| f in fields[k].targetFields && mi == CreateMetaInfo(f, fields[k]);
      TargetFieldsMatch(sourceColumns[k], writable);
    }
    if i < |sourceColumns| && exists f :: f in t.fields && Writable(f) && f.name == target.name && Correlates(f, sourceColumns[i]) {
      var f :| f in t.fields && Writable(f) && f.name == target.name && Correlates(f, sourceColumns[i]);
      TargetFieldsMatch(sourceColumns[i], writable);
      var mi := CreateMetaInfo(f, fields[i]);
      FieldMetaInfosIn(fields[i], mi);
      MetaInfosIn(fields, mi);
    }
  }

  /** In a successful Build every meta info's CLR type is its stored column's
   *  serialiser's, and its data type name that type's name in lower case. */
  lemma BuildMetaInfoTypes(t: Table, sourceColumns: seq<ColumnDescriptor>)
    requires Build(t, sourceColumns).Success?
    ensures var m := Build(t, sourceColumns).value;
      |m.columnSerialisers| == |sourceColumns|
      && forall mi :: mi in m.columnMetaInfos ==>
            mi.sourceIndex < |sourceColumns| && mi.fieldType == m.columnSerialisers[mi.sourceIndex].DotNetTypeName()
            && mi.dataTypeName == Lowered(mi.fieldType)
  {
    var fields := BuildFields(t, sourceColumns);
    var m := Build(t, sourceColumns).value;
    forall mi | mi in m.columnMetaInfos
      ensures mi.sourceIndex < |sourceColumns| && mi.fieldType == m.columnSerialisers[mi.sourceIndex].DotNetTypeName()
        && mi.dataTypeName == Lowered(mi.fieldType)
    {
      MetaInfosIn(fields, mi);
      var k :| 0 <= k < |fields| && mi in FieldMetaInfos(fields[k]);
      FieldMetaInfosIn(fields[k], mi);
    }
  }
}
