/** The database as the parser sees it through JDBC `DatabaseMetaData`,
    with the connection plumbing stripped away, and the values the parser
    builds from it. */
module Metadata {
  import opened Wrappers
  import opened JavaStrings

  /** What a `ResultSet` delivers: its rows in order, and whether the call
      to `next()` (or a column read) after the last of them throws an
      `SQLException` instead of reporting the end. */
  datatype Cursor<T> = Cursor(rows: seq<T>, thenThrows: bool)

  /** The outcome of a metadata call that may throw or hand back a null
      result set (`getTables`, `getColumns`). */
  datatype Query<T> = Threw | Returned(rs: Option<Cursor<T>>)

  /** A row of `getTables`: TABLE_CAT, TABLE_SCHEM and TABLE_NAME. */
  datatype TableRow = TableRow(cat: NStr, schem: NStr, name: string)

  /** A row of `getColumns`: COLUMN_NAME, DATA_TYPE, REMARKS, IS_NULLABLE. */
  datatype ColumnRow = ColumnRow(name: string, dataType: int, remarks: NStr, isNullable: NStr)

  /** The metadata queries the parser issues. The `(catalog, schemaPattern,
      tableName)` arguments follow the JDBC signatures. For `getCatalogs`,
      `getSchemas` and `getPrimaryKeys` a call that throws is the cursor
      with no rows that throws at once; the parser treats both alike.
      `tables` stands for `getTables` with its fixed table-type filter
      {"TABLE", "VIEW"}. */
  datatype Source = Source(
    catalogs: Cursor<NStr>,
    schemas: Cursor<NStr>,
    tables: (NStr, NStr, string) -> Query<TableRow>,
    primaryKeys: (NStr, NStr, string) -> Cursor<string>,
    columns: (NStr, NStr, string) -> Query<ColumnRow>)

  /** One column as `DefaultField` holds it after the parser's setters. */
  datatype Field = Field(
    name: string,
    nativeDataType: string,
    derivedDataType: string,
    description: NStr,
    nullable: bool,
    primaryKey: bool)

  /** What the parser needs to build fields but does not define itself:
      `ParserHelper.toNativeType` and `ParserHelper.sqlTypeToHiveType`, and
      the state of a freshly constructed `DefaultField`. */
  datatype FieldContext = FieldContext(
    toNativeType: int -> string,
    sqlTypeToHiveType: int -> string,
    initial: Field)

  /** `DefaultTableSchema` after `describeTable` has set its three properties. */
  datatype TableSchema = TableSchema(name: string, schemaName: NStr, fields: seq<Field>)

  /** The Java exceptions that leave the parser. */
  datatype Error =
    | IllegalArgument(message: string)   // from Validate.isTrue
    | Runtime(message: string)           // a RuntimeException wrapping an SQLException
    | SqlException                       // thrown out of listColumns to its caller

  /** The arguments of one `getTables` call. */
  datatype TableQuery = TableQuery(catalog: NStr, schemaPattern: NStr, tableNamePattern: string)

  const UnableToListSchemas: string := "Unable to list schemas"
  const UnableToListCatalogs: string := "Unable to list catalogs"
  const UnableToObtainTableList: string := "Unable to obtain table list"
  const TableExpected: string := "Table expected"

  /** The message `describeTable` wraps a database failure in. */
  function UnableToDescribe(schema: NStr, table: string): string {
    "Unable to describe schema [" + Text(schema) + "] table [" + table + "]"
  }
}
