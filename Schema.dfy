/** The database schema the builders work from: a table's name, schema and fields, each
 *  field with its SQL Server type. */
module Schema {
  import opened Wrappers
  import opened Bytes
  import opened OrdinalText
  import opened TableIdentifiers

  /** System.Data.SqlDbType.  `Undefined` is a value cast from an integer that names no
   *  member. */
  datatype SqlDbType =
    | BigInt | Binary | Bit | Char | DateTime | Decimal | Float | Image | Int | Money
    | NChar | NText | NVarChar | Real | UniqueIdentifier | SmallDateTime | SmallInt
    | SmallMoney | Text | Timestamp | TinyInt | VarBinary | VarChar | Variant | Xml
    | Udt | Structured | Date | Time | DateTime2 | DateTimeOffset
    | Undefined(value: int32)

  /** Table.DataType: the type's name, its SqlDbType, its maximum length in bytes and the
   *  decimal precision the catalogue reports for it (a byte). */
  datatype DataType = DataType(name: Option<string>, sqlDbType: SqlDbType, maxLength: int32, precision: byte)

  /** Table.Field. */
  datatype Field = Field(name: Option<string>, dataType: DataType, isNullable: bool, isComputed: bool)

  /** Table. */
  datatype Table = Table(name: Option<string>, schema: Option<string>, fields: seq<Field>)

  /** Identify: the table's identifier; a null name throws ArgumentNullException. */
  function Identify(t: Table): (r: Result<TableIdentifier>)
    ensures r.Failure? <==> t.name.None?
    ensures r.Success? ==> r.value.name == t.name.value
  {
    NewTableIdentifier(t.schema, t.name)
  }
}
