/** SqlServerExportModelBuilder: from a table's schema to what an export writes, the
 *  table descriptor, one column descriptor per exported field and the serialisers
 *  that write them, with the columns packed by alignment (primitives, then fixed-size
 *  buffers, then variable-size ones; the larger first among fixed sizes; otherwise in
 *  the fields' order). */
module ExportModelBuilders {
  import opened Wrappers
  import opened Bytes
  import opened Serialiser
  import ColumnFlags
  import ColumnDataType
  import opened ColumnDescriptors
  import opened Columns
  import opened DecimalPacking
  import opened SerialiserValidation
  import opened TableFileFormat
  import opened Schema
  import opened ColumnDefinitions

  // ---------------------------------------------------------------- InterpretField

  /** `field.IsNullable ? flags : ColumnFlags.None`. */
  function FieldFlags(f: Field, flags: ColumnFlags.Flags): ColumnFlags.Flags
  {
    if f.isNullable then flags else ColumnFlags.NoFlags
  }

  /** The SQL types whose nullable columns are marked Nullable rather than
   *  AbsentWhenNull: the integers, the floating-point types and decimal. */
  predicate NumericType(t: SqlDbType)
  {
    t.BigInt? || t.Int? || t.SmallInt? || t.TinyInt? || t.Float? || t.Real? || t.Decimal?
  }

  /** The types InterpretField refuses with NotSupportedException: variant,
   *  user-defined and table types, and a float of no length or more than eight
   *  bytes. */
  predicate NotSupportedType(dt: DataType)
  {
    dt.sqlDbType.Variant? || dt.sqlDbType.Udt? || dt.sqlDbType.Structured?
    || (dt.sqlDbType.Float? && !(0 < dt.maxLength <= 8))
  }

  /** The types it refuses with ArgumentOutOfRangeException: a value outside the
   *  enum, and a fixed-size character or binary type without a positive length (the
   *  column definitions' constructors refuse it). */
  predicate OutOfRangeType(dt: DataType)
  {
    dt.sqlDbType.Undefined?
    || (FixedBufferType(dt.sqlDbType) && dt.maxLength <= 0)
  }

  /** A fixed-size character or binary type, stored in a column of its length. */
  predicate FixedBufferType(t: SqlDbType)
  {
    t.Char? || t.Binary? || t.Timestamp?
  }

  /** InterpretField: the column definition for a field's SQL type, or the exception
   *  for a type no definition stores. */
  function InterpretField(f: Field): (r: Result<Definition>)
    ensures r.Failure? <==> NotSupportedType(f.dataType) || OutOfRangeType(f.dataType)
    ensures r.Failure? ==> r.error == if NotSupportedType(f.dataType) then NotSupported else ArgumentOutOfRange
  {
    var t := f.dataType.sqlDbType;
    if NumericType(t) then InterpretNumeric(f)
    else if FixedBufferType(t) then InterpretFixedBuffer(f)
    else if t.Variant? || t.Udt? || t.Structured? then Failure(NotSupported)
    else if t.Undefined? then Failure(ArgumentOutOfRange)
    else Success(InterpretOther(f))
  }

  /** The numeric cases, whose nullable columns are marked Nullable. */
  function InterpretNumeric(f: Field): (r: Result<Definition>)
    requires NumericType(f.dataType.sqlDbType)
    ensures r.Failure? <==> NotSupportedType(f.dataType)
    ensures r.Failure? ==> r.error == NotSupported
  {
    var n := f.dataType.maxLength;
    var nullable := FieldFlags(f, ColumnFlags.Nullable);
    match f.dataType.sqlDbType
    case BigInt => Success(BigIntColumn(nullable))
    case Int => Success(IntColumn(nullable))
    case SmallInt => Success(Shown(SmallIntColumn(nullable)))
    case TinyInt => Success(Shown(TinyIntColumn(nullable)))
    case Float =>
      if n <= 0 then Failure(NotSupported)
      else if n <= 4 then Success(Shown(SinglePrecisionColumn(nullable)))
      else if n <= 8 then Success(Shown(DoublePrecisionColumn(nullable)))
      else Failure(NotSupported)
    case Real => Success(Shown(SinglePrecisionColumn(nullable)))
    case Decimal => Success(Shown(DecimalColumnForDigitCount(f.dataType.precision, nullable)))
  }

  /** The fixed-size character and binary types, whose definitions refuse a length
   *  that is not positive. */
  function InterpretFixedBuffer(f: Field): (r: Result<Definition>)
    requires FixedBufferType(f.dataType.sqlDbType)
    ensures r.Failure? <==> f.dataType.maxLength <= 0
    ensures r.Failure? ==> r.error == ArgumentOutOfRange
  {
    var n := f.dataType.maxLength;
    var absent := FieldFlags(f, ColumnFlags.AbsentWhenNull);
    if f.dataType.sqlDbType.Char? then
      var c :- NewFixedLengthANSIStringColumn(n, absent);
      Success(Shown(c))
    else
      var c :- NewFixedLengthBytesColumn(n, absent);
      Success(Shown(c))
  }

  /** The other types every definition of which is accepted, marked AbsentWhenNull
   *  when nullable. */
  function InterpretOther(f: Field): Definition
    requires var t := f.dataType.sqlDbType;
      !NumericType(t) && !FixedBufferType(t) && !(t.Variant? || t.Udt? || t.Structured? || t.Undefined?)
  {
    var absent := FieldFlags(f, ColumnFlags.AbsentWhenNull);
    match f.dataType.sqlDbType
    case Text | VarChar | NText | NVarChar | NChar | Xml => Shown(VariableLengthStringColumn(absent))
    case UniqueIdentifier => Shown(UniqueIdentifierColumn(absent))
    case Bit => Shown(BitColumn(absent))
    case VarBinary | Image => Shown(VariableLengthBytesColumn(absent))
    case Money => Shown(DecimalColumnForBufferSize(12, absent).value)
    case SmallMoney => Shown(DecimalColumnForBufferSize(8, absent).value)
    case Time => Shown(TimeColumn(absent))
    case Date | DateTime | DateTime2 | SmallDateTime => Shown(DateTimeColumn(absent))
    case DateTimeOffset => Shown(DateTimeOffsetColumn(absent))
  }

  /** The flags InterpretField gives a column: Nullable for a nullable numeric field,
   *  AbsentWhenNull for any other nullable field, none for a field that is not
   *  nullable; a fixed-size character or binary type keeps its declared length, and a
   *  decimal its declared precision as the packer's digit count. */
  lemma InterpretedFieldShape(f: Field)
    requires InterpretField(f).Success?
    ensures var s := InterpretField(f).value;
      s.Flags() == FieldFlags(f, if NumericType(f.dataType.sqlDbType) then ColumnFlags.Nullable else ColumnFlags.AbsentWhenNull)
      && (FixedBufferType(f.dataType.sqlDbType) ==>
            s.Length() == f.dataType.maxLength as int)
      && (f.dataType.sqlDbType.Decimal? ==>
            s.Shown? && s.codec.DecimalColumn? && s.codec.digitCount == f.dataType.precision as int)
  {
  }

  /** Every definition InterpretField chooses has a serialiser the validator accepts:
   *  its decimal packers all have at least one word. */
  lemma InterpretedFieldsValidate(f: Field)
    requires InterpretField(f).Success?
    ensures Validate(InterpretField(f).value.Info()).Success?
  {
    DefinitionsValidate(InterpretField(f).value);
  }

  // ---------------------------------------------------------------- export fields

  /** ExportField: a field, its index among the exported fields and its serialiser. */
  datatype ExportField = ExportField(originalIndex: int16, field: Field, serialiser: Definition)

  /** CreateExportField: interpret the field, validate its serialiser and record the
   *  index. */
  function CreateExportField(f: Field, index: int16): (r: Result<ExportField>)
    ensures r.Success? <==> InterpretField(f).Success?
    ensures r.Failure? ==> r.error == InterpretField(f).error
    ensures r.Success? ==> r.value == ExportField(index, f, InterpretField(f).value)
  {
    var definition :- InterpretField(f);
    // the validator accepts every serialiser InterpretField chooses
    InterpretedFieldsValidate(f);
    Success(ExportField(index, f, definition))
  }

  /** The fields an export writes: all but the timestamp (rowversion) ones, in order. */
  function NonTimestamp(fs: seq<Field>): (r: seq<Field>)
    ensures |r| <= |fs|
  {
    if fs == [] then []
    else (if fs[0].dataType.sqlDbType.Timestamp? then [] else [fs[0]]) + NonTimestamp(fs[1..])
  }

  /** The kept fields are exactly the non-timestamp ones, each as often as before. */
  lemma {:induction false} NonTimestampKeeps(fs: seq<Field>)
    ensures forall f :: multiset(NonTimestamp(fs))[f] == if f.dataType.sqlDbType.Timestamp? then 0 else multiset(fs)[f]
  {
    if fs != [] {
      NonTimestampKeeps(fs[1..]);
      assert fs == [fs[0]] + fs[1..];
    }
  }

  /** `.Select(CreateExportField)` over the fields from index `start` on, failing with
   *  the first field's exception. */
  function CreateExportFields(fs: seq<Field>, start: nat): Result<seq<ExportField>>
    requires start + |fs| <= 0x8000
  {
    if fs == [] then Success([])
    else
      var e :- CreateExportField(fs[0], start as int16);
      var rest :- CreateExportFields(fs[1..], start + 1);
      Success([e] + rest)
  }

  /** The export fields are the fields with their indexes and definitions; the first
   *  field that has no definition decides the exception. */
  lemma {:induction false} ExportFieldsCreated(fs: seq<Field>, start: nat)
    requires start + |fs| <= 0x8000
    ensures var r := CreateExportFields(fs, start);
      (r.Success? <==> forall i :: 0 <= i < |fs| ==> InterpretField(fs[i]).Success?)
      && (r.Success? ==> |r.value| == |fs| && forall i :: 0 <= i < |fs| ==>
            r.value[i] == ExportField((start + i) as int16, fs[i], InterpretField(fs[i]).value))
      && (r.Failure? ==>
            exists i :: 0 <= i < |fs| && InterpretField(fs[i]).Failure? && r.error == InterpretField(fs[i]).error
              && (forall k :: 0 <= k < i ==> InterpretField(fs[k]).Success?))
  {
    if fs != [] {
      ExportFieldsCreated(fs[1..], start + 1);
      var r := CreateExportFields(fs, start);
      if InterpretField(fs[0]).Success? && r.Failure? {
        var rest := CreateExportFields(fs[1..], start + 1);
        var i :| 0 <= i < |fs| - 1 && InterpretField(fs[1..][i]).Failure? && rest.error == InterpretField(fs[1..][i]).error
            && (forall k :: 0 <= k < i ==> InterpretField(fs[1..][k]).Success?);
        assert InterpretField(fs[i + 1]).Failure?;
        forall k | 0 < k < i + 1
          ensures InterpretField(fs[k]).Success?
        {
          assert fs[k] == fs[1..][k - 1];
        }
      }
    }
  }

  /** Fields that all have definitions give the export fields numbered from `start`. */
  lemma ExportFieldsOfDefinitions(fs: seq<Field>, start: nat, es: seq<ExportField>)
    requires start + |fs| <= 0x8000 && |es| == |fs|
    requires forall i :: 0 <= i < |fs| ==>
      InterpretField(fs[i]).Success? && es[i] == ExportField((start + i) as int16, fs[i], InterpretField(fs[i]).value)
    ensures CreateExportFields(fs, start) == Success(es)
  {
    ExportFieldsCreated(fs, start);
    assert CreateExportFields(fs, start).value == es;
  }

  /** A table without timestamp fields keeps them all. */
  lemma {:induction false} NoTimestamps(fs: seq<Field>)
    requires forall i :: 0 <= i < |fs| ==> !fs[i].dataType.sqlDbType.Timestamp?
    ensures NonTimestamp(fs) == fs
  {
    if fs != [] {
      NoTimestamps(fs[1..]);
      assert fs == [fs[0]] + fs[1..];
    }
  }

  // ---------------------------------------------------------------- packing order

  /** AlignmentPackingComparer.Compare: the classification ordinals' difference; for
   *  two fixed-size fields of one class, the negated difference of their lengths;
   *  otherwise the difference of their indexes. */
  function Compare(x: ExportField, y: ExportField): int
  {
    var cx := x.serialiser.Classification();
    var cy := y.serialiser.Classification();
    var classificationDifference := cx.Ordinal() - cy.Ordinal();
    if classificationDifference != 0 then classificationDifference
    else if cx != ColumnDataType.VariableLengthBuffer && x.serialiser.Length() - y.serialiser.Length() != 0 then
      -(x.serialiser.Length() - y.serialiser.Length())
    else x.originalIndex - y.originalIndex
  }

  /** Comparing the other way round negates the result. */
  lemma CompareAntisymmetric(x: ExportField, y: ExportField)
    ensures Compare(x, y) == -Compare(y, x)
  {
  }

  /** The comparer orders transitively, so sorting by it is well defined. */
  lemma CompareTransitive(x: ExportField, y: ExportField, z: ExportField)
    requires Compare(x, y) <= 0 && Compare(y, z) <= 0
    ensures Compare(x, z) <= 0
  {
  }

  /** The packing order read off two column descriptors: a lower class first; in one
   *  class of fixed size, the longer first; then the lower index. */
  predicate PacksBefore(a: ColumnDescriptor, b: ColumnDescriptor)
  {
    var ca := ColumnDataType.Classify(a.storedDataType);
    var cb := ColumnDataType.Classify(b.storedDataType);
    ca.Success? && cb.Success? &&
    (ca.value.Ordinal() < cb.value.Ordinal()
     || (ca.value == cb.value && ca.value.IsFixedLength() && a.length > b.length)
     || (ca.value == cb.value && (!ca.value.IsFixedLength() || a.length == b.length) && a.originalIndex < b.originalIndex))
  }

  /** Descriptors in packing order. */
  predicate PackedDescriptors(ds: seq<ColumnDescriptor>)
  {
    forall i, j :: 0 <= i < j < |ds| ==> PacksBefore(ds[i], ds[j])
  }

  /** Export fields in the comparer's order. */
  predicate Packed(s: seq<ExportField>)
  {
    forall i, j :: 0 <= i < j < |s| ==> Compare(s[i], s[j]) <= 0
  }

  /** Insert a field before the first one it does not follow, so that a field goes
   *  before the later ones that compare equal to it. */
  function Insert(e: ExportField, s: seq<ExportField>): seq<ExportField>
  {
    if s == [] then [e]
    else if Compare(e, s[0]) <= 0 then [e] + s
    else [s[0]] + Insert(e, s[1..])
  }

  /** `.OrderBy(f => f, comparer)`, a stable sort. */
  function SortByPacking(s: seq<ExportField>): seq<ExportField>
  {
    if s == [] then [] else Insert(s[0], SortByPacking(s[1..]))
  }

  /** Inserting adds the field to what there was. */
  lemma {:induction false} InsertPermutes(e: ExportField, s: seq<ExportField>)
    ensures multiset(Insert(e, s)) == multiset(s) + multiset{e}
  {
    if s != [] {
      assert s == [s[0]] + s[1..];
      if Compare(e, s[0]) > 0 {
        InsertPermutes(e, s[1..]);
      }
    }
  }

  /** A field that no later one precedes, before a packed sequence, leaves it
   *  packed. */
  lemma PackedCons(x: ExportField, r: seq<ExportField>)
    requires Packed(r) && forall j :: 0 <= j < |r| ==> Compare(x, r[j]) <= 0
    ensures Packed([x] + r)
  {
    var s := [x] + r;
    forall i, j | 0 <= i < j < |s|
      ensures Compare(s[i], s[j]) <= 0
    {
      assert s[j] == r[j - 1];
      if i > 0 {
        assert s[i] == r[i - 1];
      }
    }
  }

  /** Inserting into a packed sequence keeps it packed. */
  lemma {:induction false} InsertPacked(e: ExportField, s: seq<ExportField>)
    requires Packed(s)
    ensures Packed(Insert(e, s))
  {
    if s == [] {
    } else if Compare(e, s[0]) <= 0 {
      forall j | 0 <= j < |s|
        ensures Compare(e, s[j]) <= 0
      {
        if j > 0 {
          CompareTransitive(e, s[0], s[j]);
        }
      }
      PackedCons(e, s);
    } else {
      var tail := s[1..];
      var rest := Insert(e, tail);
      assert Packed(tail) by {
        forall i, j | 0 <= i < j < |tail| ensures Compare(tail[i], tail[j]) <= 0 {
          assert tail[i] == s[i + 1] && tail[j] == s[j + 1];
        }
      }
      InsertPacked(e, tail);
      InsertPermutes(e, tail);
      CompareAntisymmetric(e, s[0]);
      forall j | 0 <= j < |rest|
        ensures Compare(s[0], rest[j]) <= 0
      {
        assert rest[j] in multiset(tail) + multiset{e};
        if rest[j] != e {
          assert rest[j] in multiset(tail);
          var k :| 0 <= k < |tail| && tail[k] == rest[j];
          assert s[k + 1] == rest[j];
        }
      }
      PackedCons(s[0], rest);
    }
  }

  /** The sort's result is packed, and is a permutation of its input. */
  lemma {:induction false} SortedByPacking(s: seq<ExportField>)
    ensures Packed(SortByPacking(s))
    ensures multiset(SortByPacking(s)) == multiset(s)
  {
    if s != [] {
      SortedByPacking(s[1..]);
      InsertPacked(s[0], SortByPacking(s[1..]));
      InsertPermutes(s[0], SortByPacking(s[1..]));
      assert s == [s[0]] + s[1..];
    }
  }

  /** No two fields share an index. */
  predicate DistinctIndexes(s: seq<ExportField>)
  {
    forall i, j :: 0 <= i < j < |s| ==> s[i].originalIndex != s[j].originalIndex
  }

  /** Two fields with different indexes never compare equal. */
  lemma CompareDistinct(x: ExportField, y: ExportField)
    requires x.originalIndex != y.originalIndex
    ensures Compare(x, y) != 0
  {
  }

  /** A permutation of fields with distinct indexes has distinct indexes. */
  lemma PermutationDistinct(a: seq<ExportField>, b: seq<ExportField>)
    requires DistinctIndexes(a) && multiset(a) == multiset(b)
    ensures DistinctIndexes(b)
  {
    forall i, j | 0 <= i < j < |b|
      ensures b[i].originalIndex != b[j].originalIndex
    {
      assert b[i] in multiset(a) && b[j] in multiset(a);
      var p :| 0 <= p < |a| && a[p] == b[i];
      var q :| 0 <= q < |a| && a[q] == b[j];
      if p == q {
        TwiceCounted(b, i, j);
        UniqueCounted(a, p);
      }
    }
  }

  /** An element at two positions is counted at least twice. */
  lemma TwiceCounted(s: seq<ExportField>, i: nat, j: nat)
    requires i < j < |s| && s[i] == s[j]
    ensures multiset(s)[s[i]] >= 2
  {
    assert s == s[..j] + s[j..];
    assert s[i] in s[..j];
    assert s[j] in s[j..];
  }

  /** In fields with distinct indexes each field is counted once. */
  lemma UniqueCounted(s: seq<ExportField>, p: nat)
    requires DistinctIndexes(s) && p < |s|
    ensures multiset(s)[s[p]] == 1
  {
    assert s == s[..p] + [s[p]] + s[p + 1..];
    assert s[p] !in s[..p] by {
      forall k | 0 <= k < p ensures s[k] != s[p] { }
    }
    assert s[p] !in s[p + 1..] by {
      forall k | p < k < |s| ensures s[k] != s[p] { }
    }
    assert multiset(s) == multiset(s[..p]) + multiset{s[p]} + multiset(s[p + 1..]);
  }

  /** Two packed permutations of fields with distinct indexes begin alike. */
  lemma PackedHeadsAgree(a: seq<ExportField>, b: seq<ExportField>)
    requires Packed(a) && Packed(b) && multiset(a) == multiset(b) && DistinctIndexes(a) && a != []
    ensures b != [] && a[0] == b[0]
  {
    assert a[0] in multiset(b);
    assert b != [];
    assert b[0] in multiset(a);
    var p :| 0 <= p < |a| && a[p] == b[0];
    var q :| 0 <= q < |b| && b[q] == a[0];
    if p != 0 {
      assert q != 0;
      assert Compare(a[0], a[p]) <= 0;
      assert Compare(b[0], b[q]) <= 0;
      CompareAntisymmetric(a[0], b[0]);
      if a[0].originalIndex != b[0].originalIndex {
        CompareDistinct(a[0], b[0]);
      }
    }
  }

  /** Dropping the first field keeps a sequence packed and its indexes distinct. */
  lemma PackedTail(a: seq<ExportField>)
    requires a != []
    ensures Packed(a) ==> Packed(a[1..])
    ensures DistinctIndexes(a) ==> DistinctIndexes(a[1..])
  {
    var ta := a[1..];
    assert forall i :: 0 <= i < |ta| ==> ta[i] == a[i + 1];
  }

  /** With distinct indexes there is only one packed order: whichever stable sort
   *  OrderBy performs, its result is the one SortByPacking computes. */
  lemma {:induction false} PackedOrderUnique(a: seq<ExportField>, b: seq<ExportField>)
    requires Packed(a) && Packed(b) && multiset(a) == multiset(b) && DistinctIndexes(a)
    ensures a == b
    decreases |a|
  {
    if a == [] {
      assert |b| == |multiset(b)| == 0;
    } else {
      PackedHeadsAgree(a, b);
      var ta, tb := a[1..], b[1..];
      assert a == [a[0]] + ta && b == [b[0]] + tb;
      assert multiset(a) == multiset{a[0]} + multiset(ta);
      assert multiset(b) == multiset{a[0]} + multiset(tb);
      assert multiset(ta) == multiset(a) - multiset{a[0]};
      assert multiset(tb) == multiset(b) - multiset{a[0]};
      PackedTail(a);
      PackedTail(b);
      PackedOrderUnique(ta, tb);
    }
  }

  // ---------------------------------------------------------------- descriptors

  /** GetLengthForDescriptor: a fixed-size serialiser's length, or the SQL type's
   *  maximum length for a variable-size one. */
  function LengthForDescriptor(s: Definition, dataTypeLength: int32): (r: int32)
    ensures s.Classification().IsFixedLength() ==> r as int == s.Length()
    ensures !s.Classification().IsFixedLength() ==> r == dataTypeLength
  {
    match s.Classification()
    case FixedLengthPrimitive => s.Length() as int32
    case FixedLengthBuffer => s.Length() as int32
    case VariableLengthBuffer => dataTypeLength
  }

  /** CreateDescriptor. */
  function Descriptor(e: ExportField): ColumnDescriptor
  {
    ColumnDescriptor(e.field.name, e.serialiser.Flags(), e.originalIndex, e.serialiser.DataType(),
                     LengthForDescriptor(e.serialiser, e.field.dataType.maxLength))
  }

  /** Two export fields compare below zero exactly when their descriptors are in
   *  packing order. */
  lemma CompareMatchesDescriptors(x: ExportField, y: ExportField)
    ensures Compare(x, y) < 0 <==> PacksBefore(Descriptor(x), Descriptor(y))
  {
  }

  // ---------------------------------------------------------------- Build

  /** ExportModel. */
  datatype ExportModel = ExportModel(
    id: Guid,
    tableDescriptor: TableDescriptor,
    columnDescriptors: seq<ColumnDescriptor>,
    columnSerialisers: seq<Definition>)

  /** `fields.Select(f)` for the two projections Build takes. */
  function Descriptors(s: seq<ExportField>): (r: seq<ColumnDescriptor>)
    ensures |r| == |s| && forall k :: 0 <= k < |s| ==> r[k] == Descriptor(s[k])
  {
    seq(|s|, k requires 0 <= k < |s| => Descriptor(s[k]))
  }

  function Serialisers(s: seq<ExportField>): (r: seq<Definition>)
    ensures |r| == |s| && forall k :: 0 <= k < |s| ==> r[k] == s[k].serialiser
  {
    seq(|s|, k requires 0 <= k < |s| => s[k].serialiser)
  }

  /** The export fields Build sorts, when every kept field has a definition. */
  function ExportFields(t: Table): Result<seq<ExportField>>
    requires |t.fields| <= 0x7FFF
  {
    CreateExportFields(NonTimestamp(t.fields), 0)
  }

  /** Build, with the table's id as the table id policy generated it: more than 32767
   *  fields throw ArgumentException. */
  function Build(t: Table, id: Guid): (r: Result<ExportModel>)
  {
    if |t.fields| > 0x7FFF then Failure(Argument)
    else
      var fields :- ExportFields(t);
      var packed := SortByPacking(fields);
      Success(ExportModel(
        id,
        TableDescriptor(id, t.name, Some(if t.schema.None? then "" else t.schema.value)),
        Descriptors(packed),
        Serialisers(packed)))
  }

  /** Build fails exactly when the table has too many fields or a kept field has no
   *  definition, and then with the exception of the first such field. */
  lemma BuildOutcome(t: Table, id: Guid)
    ensures |t.fields| > 0x7FFF ==> Build(t, id) == Failure(Argument)
    ensures Build(t, id).Success? <==>
      |t.fields| <= 0x7FFF && forall f :: f in NonTimestamp(t.fields) ==> InterpretField(f).Success?
    ensures |t.fields| <= 0x7FFF && Build(t, id).Failure? ==>
      exists f :: f in NonTimestamp(t.fields) && InterpretField(f).Failure? && Build(t, id).Failure?
        && Build(t, id).error == InterpretField(f).error
  {
    if |t.fields| <= 0x7FFF {
      var kept := NonTimestamp(t.fields);
      ExportFieldsCreated(kept, 0);
      if forall f :: f in kept ==> InterpretField(f).Success? {
        assert forall i :: 0 <= i < |kept| ==> InterpretField(kept[i]).Success? by {
          forall i | 0 <= i < |kept| ensures InterpretField(kept[i]).Success? {
            assert kept[i] in kept;
          }
        }
      }
    }
  }

  /** The export field Build makes of the field at an index among the kept ones. */
  function FieldAt(kept: seq<Field>, i: nat): ExportField
    requires i < |kept| <= 0x7FFF && InterpretField(kept[i]).Success?
  {
    ExportField(i as int16, kept[i], InterpretField(kept[i]).value)
  }

  /** The kept fields' export fields, in the kept fields' order. */
  lemma ExportFieldsOf(t: Table)
    requires |t.fields| <= 0x7FFF && ExportFields(t).Success?
    ensures var kept := NonTimestamp(t.fields);
      var fields := ExportFields(t).value;
      |fields| == |kept| && DistinctIndexes(fields)
      && forall i :: 0 <= i < |kept| ==> InterpretField(kept[i]).Success? && fields[i] == FieldAt(kept, i)
  {
    ExportFieldsCreated(NonTimestamp(t.fields), 0);
  }

  /** The descriptors' indexes. */
  function Indexes(ds: seq<ColumnDescriptor>): (r: seq<int>)
    ensures |r| == |ds| && forall k :: 0 <= k < |ds| ==> r[k] == ds[k].originalIndex as int
  {
    seq(|ds|, k requires 0 <= k < |ds| => ds[k].originalIndex as int)
  }

  /** The sorted export fields are the kept fields' export fields, each once. */
  lemma PackedFieldsOf(t: Table)
    requires |t.fields| <= 0x7FFF && ExportFields(t).Success?
    ensures var kept := NonTimestamp(t.fields);
      var packed := SortByPacking(ExportFields(t).value);
      |packed| == |kept|
      && (forall k :: 0 <= k < |packed| ==>
            var i := packed[k].originalIndex as int;
            0 <= i < |kept| && InterpretField(kept[i]).Success? && packed[k] == FieldAt(kept, i))
      && (forall i :: 0 <= i < |kept| ==> i in Indexes(Descriptors(packed)))
  {
    var kept := NonTimestamp(t.fields);
    var fields := ExportFields(t).value;
    var packed := SortByPacking(fields);
    ExportFieldsOf(t);
    SortedByPacking(fields);
    assert |packed| == |multiset(packed)| == |fields|;
    forall k | 0 <= k < |packed|
      ensures var i := packed[k].originalIndex as int;
        0 <= i < |kept| && InterpretField(kept[i]).Success? && packed[k] == FieldAt(kept, i)
    {
      assert packed[k] in multiset(fields);
      var i :| 0 <= i < |fields| && fields[i] == packed[k];
    }
    forall i | 0 <= i < |kept|
      ensures i in Indexes(Descriptors(packed))
    {
      assert fields[i] in multiset(packed);
      var k :| 0 <= k < |packed| && packed[k] == fields[i];
      assert Indexes(Descriptors(packed))[k] == i;
    }
  }

  /** A successful Build has one descriptor and one serialiser per kept field, each
   *  descriptor made from the kept field at its index and each serialiser the one
   *  InterpretField chose for that field, validated against its descriptor; every
   *  kept field's index appears. */
  lemma BuildColumns(t: Table, id: Guid)
    requires Build(t, id).Success?
    ensures var m := Build(t, id).value;
      var kept := NonTimestamp(t.fields);
      m.id == id && m.tableDescriptor == TableDescriptor(id, t.name, Some(if t.schema.None? then "" else t.schema.value))
      && |m.columnDescriptors| == |m.columnSerialisers| == |kept|
      && (forall k :: 0 <= k < |kept| ==>
            var i := m.columnDescriptors[k].originalIndex as int;
            0 <= i < |kept| && InterpretField(kept[i]).Success?
            && m.columnSerialisers[k] == InterpretField(kept[i]).value
            && m.columnDescriptors[k] == Descriptor(FieldAt(kept, i))
            && ValidateAgainst(m.columnSerialisers[k].Info(), m.columnDescriptors[k]).Success?)
      && (forall i :: 0 <= i < |kept| ==> i in Indexes(m.columnDescriptors))
  {
    var m := Build(t, id).value;
    var kept := NonTimestamp(t.fields);
    var packed := SortByPacking(ExportFields(t).value);
    assert m.columnDescriptors == Descriptors(packed) && m.columnSerialisers == Serialisers(packed);
    PackedFieldsOf(t);
    forall k | 0 <= k < |kept|
      ensures ValidateAgainst(m.columnSerialisers[k].Info(), m.columnDescriptors[k]).Success?
    {
      ValidatesAgainstOwnDescriptor(packed[k]);
    }
  }

  /** A serialiser the validator accepts also passes against the descriptor made
   *  from it. */
  lemma ValidatesAgainstOwnDescriptor(e: ExportField)
    requires InterpretField(e.field).Success? && e.serialiser == InterpretField(e.field).value
    ensures ValidateAgainst(e.serialiser.Info(), Descriptor(e)).Success?
  {
    InterpretedFieldsValidate(e.field);
  }

  /** A successful Build's descriptors are in packing order, and its serialisers are
   *  in the same order. */
  lemma BuildPacked(t: Table, id: Guid)
    requires Build(t, id).Success?
    ensures PackedDescriptors(Build(t, id).value.columnDescriptors)
  {
    var m := Build(t, id).value;
    var fields := ExportFields(t).value;
    var packed := SortByPacking(fields);
    ExportFieldsOf(t);
    SortedByPacking(fields);
    PermutationDistinct(fields, packed);
    forall i, j | 0 <= i < j < |packed|
      ensures PacksBefore(m.columnDescriptors[i], m.columnDescriptors[j])
    {
      CompareDistinct(packed[i], packed[j]);
      CompareMatchesDescriptors(packed[i], packed[j]);
    }
  }

  /** The table of SqlServerExportModelBuilderTests.PacksColumnsByAlignment, whose
   *  fields are named "Int32", "Int64", "Byte", "String", "Fixed String" and "Int16";
   *  here the six names are left open. */
  function AlignmentTable(names: seq<Option<string>>): Table
    requires |names| == 6
  {
    Table(Some("Table"), Some("Schema"), [
      Field(names[0], DataType(Some("int"), Int, 4, 0), false, false),
      Field(names[1], DataType(Some("bigint"), BigInt, 8, 0), false, false),
      Field(names[2], DataType(Some("tinyint"), TinyInt, 1, 0), false, false),
      Field(names[3], DataType(Some("varchar"), VarChar, 8, 0), false, false),
      Field(names[4], DataType(Some("char"), Char, 10, 0), false, false),
      Field(names[5], DataType(Some("smallint"), SmallInt, 2, 0), false, false)])
  }

  /** The export fields of the test's table, in its order. */
  function AlignmentFields(names: seq<Option<string>>): seq<ExportField>
    requires |names| == 6
  {
    var fs := AlignmentTable(names).fields;
    [ExportField(0, fs[0], IntColumn(0)),
     ExportField(1, fs[1], BigIntColumn(0)),
     ExportField(2, fs[2], Shown(TinyIntColumn(0))),
     ExportField(3, fs[3], Shown(VariableLengthStringColumn(0))),
     ExportField(4, fs[4], Shown(FixedLengthANSIStringColumn(0, 10))),
     ExportField(5, fs[5], Shown(SmallIntColumn(0)))]
  }

  /** InterpretField chooses the test's definitions: an int, a bigint, a tinyint, a
   *  variable-length string, a ten-character string and a smallint column. */
  lemma AlignmentDefinitions(names: seq<Option<string>>)
    requires |names| == 6
    ensures var fs, es := AlignmentTable(names).fields, AlignmentFields(names);
      |es| == |fs| == 6 &&
      forall i :: 0 <= i < |fs| ==>
        InterpretField(fs[i]).Success? && es[i] == ExportField((0 + i) as int16, fs[i], InterpretField(fs[i]).value)
  {
    var fs, e := AlignmentTable(names).fields, AlignmentFields(names);
    assert InterpretField(fs[0]) == Success(e[0].serialiser);
    assert InterpretField(fs[1]) == Success(e[1].serialiser);
    assert InterpretField(fs[2]) == Success(e[2].serialiser);
    assert InterpretField(fs[3]) == Success(e[3].serialiser);
    assert InterpretField(fs[4]) == Success(e[4].serialiser);
    assert InterpretField(fs[5]) == Success(e[5].serialiser);
  }

  /** The test's table has no timestamp field. */
  lemma AlignmentUntimestamped(names: seq<Option<string>>)
    requires |names| == 6
    ensures var fs := AlignmentTable(names).fields;
      forall i :: 0 <= i < |fs| ==> !fs[i].dataType.sqlDbType.Timestamp?
  {
  }

  /** The test table's fields all become export fields. */
  lemma AlignmentFieldsCreated(names: seq<Option<string>>)
    requires |names| == 6
    ensures ExportFields(AlignmentTable(names)).Success? && ExportFields(AlignmentTable(names)).value == AlignmentFields(names)
  {
    var t := AlignmentTable(names);
    AlignmentDefinitions(names);
    AlignmentUntimestamped(names);
    NoTimestamps(t.fields);
    ExportFieldsOfDefinitions(t.fields, 0, AlignmentFields(names));
  }

  /** How the comparer orders the test's fields. */
  lemma AlignmentComparisons(names: seq<Option<string>>)
    requires |names| == 6
    ensures var e := AlignmentFields(names);
      Compare(e[4], e[5]) > 0 && Compare(e[3], e[5]) > 0 && Compare(e[3], e[4]) > 0
      && Compare(e[2], e[5]) > 0 && Compare(e[2], e[4]) <= 0
      && Compare(e[1], e[5]) <= 0 && Compare(e[0], e[1]) > 0 && Compare(e[0], e[5]) <= 0
  {
  }

  /** One step of the sort: the first field is inserted into the sorted rest. */
  lemma SortStep(x: ExportField, s: seq<ExportField>)
    ensures SortByPacking([x] + s) == Insert(x, SortByPacking(s))
  {
    assert ([x] + s)[1..] == s;
  }

  /** One step of an insertion: past a field that precedes it, or in front of one
   *  that does not. */
  lemma InsertStep(e: ExportField, x: ExportField, s: seq<ExportField>)
    ensures Compare(e, x) <= 0 ==> Insert(e, [x] + s) == [e, x] + s
    ensures Compare(e, x) > 0 ==> Insert(e, [x] + s) == [x] + Insert(e, s)
  {
    assert ([x] + s)[1..] == s;
  }

  /** The sort of six fields that compare as the test's do. */
  lemma SixSorted(e0: ExportField, e1: ExportField, e2: ExportField, e3: ExportField, e4: ExportField, e5: ExportField)
    requires Compare(e4, e5) > 0 && Compare(e3, e5) > 0 && Compare(e3, e4) > 0
    requires Compare(e2, e5) > 0 && Compare(e2, e4) <= 0
    requires Compare(e1, e5) <= 0 && Compare(e0, e1) > 0 && Compare(e0, e5) <= 0
    ensures SortByPacking([e0, e1, e2, e3, e4, e5]) == [e1, e0, e5, e2, e4, e3]
  {
    SortStep(e5, []);
    assert SortByPacking([e5]) == [e5];
    SortStep(e4, [e5]);
    InsertStep(e4, e5, []);
    assert SortByPacking([e4, e5]) == [e5, e4];
    SortStep(e3, [e4, e5]);
    InsertStep(e3, e5, [e4]);
    InsertStep(e3, e4, []);
    assert SortByPacking([e3, e4, e5]) == [e5, e4, e3];
    SortStep(e2, [e3, e4, e5]);
    InsertStep(e2, e5, [e4, e3]);
    InsertStep(e2, e4, [e3]);
    assert SortByPacking([e2, e3, e4, e5]) == [e5, e2, e4, e3];
    SortStep(e1, [e2, e3, e4, e5]);
    InsertStep(e1, e5, [e2, e4, e3]);
    assert SortByPacking([e1, e2, e3, e4, e5]) == [e1, e5, e2, e4, e3];
    SortStep(e0, [e1, e2, e3, e4, e5]);
    InsertStep(e0, e1, [e5, e2, e4, e3]);
    InsertStep(e0, e5, [e2, e4, e3]);
  }

  /** PacksColumnsByAlignment: the 8-, 4-, 2- and 1-byte integers first, then the
   *  fixed-length string, then the variable-length one; with the test's names, the
   *  order "Int64", "Int32", "Int16", "Byte", "Fixed String", "String". */
  lemma PacksColumnsByAlignment(id: Guid, names: seq<Option<string>>)
    requires |names| == 6
    ensures Build(AlignmentTable(names), id).Success?
    ensures Names(Build(AlignmentTable(names), id).value.columnDescriptors) ==
      [names[1], names[0], names[5], names[2], names[4], names[3]]
  {
    var e := AlignmentFields(names);
    AlignmentFieldsCreated(names);
    AlignmentComparisons(names);
    assert e == [e[0], e[1], e[2], e[3], e[4], e[5]];
    SixSorted(e[0], e[1], e[2], e[3], e[4], e[5]);
    var packed := [e[1], e[0], e[5], e[2], e[4], e[3]];
    assert Build(AlignmentTable(names), id).value.columnDescriptors == Descriptors(packed);
  }

  /** The descriptors' names. */
  function Names(ds: seq<ColumnDescriptor>): (r: seq<Option<string>>)
    ensures |r| == |ds| && forall k :: 0 <= k < |ds| ==> r[k] == ds[k].originalName
  {
    seq(|ds|, k requires 0 <= k < |ds| => ds[k].originalName)
  }
}
