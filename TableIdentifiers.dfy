/** TableIdentifier: a table's schema and name, compared and hashed ignoring case. */
module TableIdentifiers {
  import opened Wrappers
  import opened Bytes
  import opened OrdinalText
  import ColumnDescriptors

  /** The struct once constructed: neither part is null. */
  datatype TableIdentifier = TableIdentifier(schema: string, name: string)

  /** The constructor: a null schema becomes empty, a null name throws
   *  ArgumentNullException. */
  function NewTableIdentifier(schema: Option<string>, name: Option<string>): (r: Result<TableIdentifier>)
    ensures r.Failure? <==> name.None?
    ensures r.Failure? ==> r.error == ArgumentNull
    ensures r.Success? ==> r.value.name == name.value
    ensures r.Success? ==> r.value.schema == if schema.None? then "" else schema.value
  {
    if name.None? then Failure(ArgumentNull)
    else Success(TableIdentifier(if schema.None? then "" else schema.value, name.value))
  }

  /** ToString: "schema.name" with the dots at either end trimmed. */
  function ToString(id: TableIdentifier): string
  {
    Trim(id.schema + "." + id.name, '.')
  }

  /** A part that does not begin or end with a dot. */
  predicate Undotted(s: string)
  {
    |s| > 0 ==> s[0] != '.' && s[|s| - 1] != '.'
  }

  /** With undotted parts, ToString is "schema.name", or the bare name for the empty
   *  schema. */
  lemma ToStringJoins(id: TableIdentifier)
    requires Undotted(id.schema) && Undotted(id.name) && |id.name| > 0
    ensures ToString(id) == if id.schema == "" then id.name else id.schema + "." + id.name
  {
    var joined := id.schema + "." + id.name;
    assert joined[|joined| - 1] == id.name[|id.name| - 1];
    if id.schema == "" {
      assert joined == ['.'] + id.name;
      TrimLeading(id.name, '.');
      TrimUntouched(id.name, '.');
    } else {
      assert joined[0] == id.schema[0];
      TrimUntouched(joined, '.');
    }
  }

  /** Equals: both parts equal ignoring case. */
  predicate Equal(x: TableIdentifier, y: TableIdentifier)
  {
    EqualsIgnoreCase(x.name, y.name) && EqualsIgnoreCase(x.schema, y.schema)
  }

  /** Equals(object): a null or an object of another type is unequal. */
  predicate EqualToObject(x: TableIdentifier, obj: Option<TableIdentifier>)
  {
    obj.Some? && Equal(x, obj.value)
  }

  /** Equality is an equivalence relation. */
  lemma EqualIsEquivalence(x: TableIdentifier, y: TableIdentifier, z: TableIdentifier)
    ensures Equal(x, x)
    ensures Equal(x, y) ==> Equal(y, x)
    ensures Equal(x, y) && Equal(y, z) ==> Equal(x, z)
    ensures EqualToObject(x, Some(y)) <==> Equal(x, y)
    ensures !EqualToObject(x, None)
  {
  }

  /** GetHashCode: `(hash(name) * 397) ^ hash(schema)`, unchecked, with the
   *  case-insensitive hash of each part. */
  function Hash(id: TableIdentifier, hash: string -> int32): int32
  {
    ColumnDescriptors.Combine(IgnoreCaseHash(id.name, hash), IgnoreCaseHash(id.schema, hash))
  }

  /** Identifiers that are equal hash alike. */
  lemma EqualHashesEqual(x: TableIdentifier, y: TableIdentifier, hash: string -> int32)
    requires Equal(x, y)
    ensures Hash(x, hash) == Hash(y, hash)
  {
    IgnoreCaseHashConsistent(x.name, y.name, hash);
    IgnoreCaseHashConsistent(x.schema, y.schema, hash);
  }

  /** The test names differ from the two-part name only in case. */
  lemma IgnoresCase()
    ensures Equal(TableIdentifier("dbo", "Table"), TableIdentifier("DBO", "table"))
    ensures !Equal(TableIdentifier("dbo", "Table"), TableIdentifier("", "Table"))
  {
    assert Folded("dbo") == Folded("DBO") == "DBO";
    assert Folded("Table") == Folded("table") == "TABLE";
  }
}

/** TableDescriptor's ToString, Identify and its ordinal equality comparer. */
module TableDescriptors {
  import opened Wrappers
  import opened Bytes
  import opened Serialiser
  import opened OrdinalText
  import opened TableFileFormat
  import opened TableIdentifiers
  import ColumnDescriptors

  /** A string reference as string interpolation prints it: null prints nothing. */
  function Printed(s: Option<string>): string
  {
    if s.None? then "" else s.value
  }

  /** ToString: "schema.name" trimmed of dots, a null part printing as empty. */
  function DescriptorToString(t: TableDescriptor): string
  {
    Trim(Printed(t.schema) + "." + Printed(t.name), '.')
  }

  /** Identify: the identifier of the descriptor's schema and name. */
  function Identify(t: TableDescriptor): (r: Result<TableIdentifier>)
    ensures r.Failure? <==> t.name.None?
  {
    NewTableIdentifier(t.schema, t.name)
  }

  /** The identifier prints as the descriptor does. */
  lemma IdentifyKeepsName(t: TableDescriptor)
    requires t.name.Some?
    ensures ToString(Identify(t).value) == DescriptorToString(t)
    ensures Identify(t).value.name == t.name.value
  {
  }

  /** The comparer's Equals: the same reference is equal, a null is not, and
   *  otherwise id, name and schema must be ordinally equal. */
  predicate Equal(x: Option<TableDescriptor>, y: Option<TableDescriptor>)
  {
    if x == y then true
    else if x.None? || y.None? then false
    else x.value.id == y.value.id && x.value.name == y.value.name && x.value.schema == y.value.schema
  }

  /** The comparer is exactly value equality, so an equivalence relation. */
  lemma EqualIsValueEquality(x: Option<TableDescriptor>, y: Option<TableDescriptor>)
    ensures Equal(x, y) <==> x == y
  {
  }

  /** Ordinal equality is stricter than the identifiers' case-insensitive one. */
  lemma EqualDescriptorsIdentifyEqually(x: TableDescriptor, y: TableDescriptor)
    requires Equal(Some(x), Some(y)) && x.name.Some?
    ensures TableIdentifiers.Equal(Identify(x).value, Identify(y).value)
  {
  }

  /** The comparer's GetHashCode, given the runtime's hashes of a Guid and a string; a
   *  null part hashes as 0. */
  function Hash(t: TableDescriptor, guidHash: Guid -> int32, stringHash: string -> int32): int32
  {
    var h := ColumnDescriptors.Combine(guidHash(t.id), if t.name.None? then 0 else stringHash(t.name.value));
    ColumnDescriptors.Combine(h, if t.schema.None? then 0 else stringHash(t.schema.value))
  }

  /** Descriptors the comparer calls equal hash alike. */
  lemma EqualHashesEqual(x: TableDescriptor, y: TableDescriptor, guidHash: Guid -> int32, stringHash: string -> int32)
    requires Equal(Some(x), Some(y))
    ensures Hash(x, guidHash, stringHash) == Hash(y, guidHash, stringHash)
  {
  }
}
