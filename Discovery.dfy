/** What each operation of `DBSchemaParser` computes, as functions of the
    metadata source. The methods of `SchemaParser.DBSchemaParser` are proved
    equal to these; `DiscoveryProperties` proves what they promise. */
module Discovery {
  import opened Wrappers
  import opened JavaStrings
  import opened Metadata

  // ---------------------------------------------------------------- catalogs and schemas

  /** A cursor read to its end: its rows, or the failure if it throws. */
  function ReadAll<T>(c: Cursor<T>, message: string): (r: Result<seq<T>, Error>)
    ensures r.Success? <==> !c.thenThrows
    ensures r.Success? ==> r.value == c.rows
    ensures r.Failure? ==> r.error == Runtime(message)
  {
    if c.thenThrows then Failure(Runtime(message)) else Success(c.rows)
  }

  /** `listCatalogs`. */
  function Catalogs(db: Source): Result<seq<NStr>, Error> {
    ReadAll(db.catalogs, UnableToListCatalogs)
  }

  /** `listSchemas`. */
  function Schemas(db: Source): Result<seq<NStr>, Error> {
    ReadAll(db.schemas, UnableToListSchemas)
  }

  // ---------------------------------------------------------------- table listing

  /** The private `getTables`: a call that throws yields a null result set. */
  function GetTables(db: Source, q: TableQuery): (r: Option<Cursor<TableRow>>)
    ensures db.tables(q.catalog, q.schemaPattern, q.tableNamePattern).Threw? ==> r.None?
    ensures db.tables(q.catalog, q.schemaPattern, q.tableNamePattern).Returned? ==>
              r == db.tables(q.catalog, q.schemaPattern, q.tableNamePattern).rs
  {
    match db.tables(q.catalog, q.schemaPattern, q.tableNamePattern)
    case Threw => None
    case Returned(rs) => rs
  }

  /** The qualifier `addTableToList` writes: the schema if it is not null
      (blank or not), else the catalog, as Java's `+` renders it. */
  function Qualifier(row: TableRow): (q: string)
    ensures row.schem.Some? ==> q == row.schem.value
    ensures row.schem.None? && row.cat.Some? ==> q == row.cat.value
    ensures row.schem.None? && row.cat.None? ==> q == "null"
  {
    Text(if row.schem.Some? then row.schem else row.cat)
  }

  /** The entry `addTableToList` appends for one row. */
  function QualifiedName(row: TableRow): (e: string)
    ensures |e| == |Qualifier(row)| + 1 + |row.name|
    ensures e[..|Qualifier(row)|] == Qualifier(row) && e[|Qualifier(row)|] == '.'
    ensures e[|Qualifier(row)| + 1..] == row.name
  {
    Qualifier(row) + "." + row.name
  }

  /** The entries for a run of rows, in row order. */
  function Entries(rows: seq<TableRow>): seq<string> {
    if rows == [] then [] else Entries(rows[..|rows| - 1]) + [QualifiedName(rows[|rows| - 1])]
  }

  /** The entries one (possibly null) result set contributes. */
  function ResultEntries(rs: Option<Cursor<TableRow>>): seq<string> {
    if rs.None? then [] else Entries(rs.value.rows)
  }

  /** True when reading the result set of `getTables` throws. */
  predicate Aborts(db: Source, q: TableQuery) {
    var rs := GetTables(db, q);
    rs.Some? && rs.value.thenThrows
  }

  /** The tables found by issuing `queries` in order: `None` once reading
      one of the result sets throws, after which no further query is issued. */
  function ScanTables(db: Source, queries: seq<TableQuery>): (r: Option<seq<string>>)
    ensures r.Some? ==> forall i :: 0 <= i < |queries| ==> !Aborts(db, queries[i])
  {
    if queries == [] then Some([])
    else
      var last := queries[|queries| - 1];
      match ScanTables(db, queries[..|queries| - 1])
      case None => None
      case Some(found) =>
        if Aborts(db, last) then None else Some(found + ResultEntries(GetTables(db, last)))
  }

  /** The schema pattern that `listTables` passes when a filter is present. */
  function SchemaPattern(schema: NStr): NStr {
    if schema.Some? then schema else Some("%")
  }

  /** The table-name pattern that `listTables` passes. */
  function TableNamePattern(tableName: NStr): string {
    if tableName.Some? then tableName.value else "%"
  }

  /** Either filter of `listTables` is present (not blank). */
  predicate Filtered(schema: NStr, tableName: NStr) {
    IsNotBlank(schema) || IsNotBlank(tableName)
  }

  /** One query per catalog, in catalog order. */
  function PerCatalog(catalogs: seq<NStr>, schemaPattern: NStr, tableNamePattern: string): (qs: seq<TableQuery>)
    ensures |qs| == |catalogs|
  {
    seq(|catalogs|, i requires 0 <= i < |catalogs| => TableQuery(catalogs[i], schemaPattern, tableNamePattern))
  }

  /** One null-catalog query per schema, in schema order. */
  function PerSchema(schemas: seq<NStr>, tableNamePattern: string): (qs: seq<TableQuery>)
    ensures |qs| == |schemas|
  {
    seq(|schemas|, i requires 0 <= i < |schemas| => TableQuery(None, schemas[i], tableNamePattern))
  }

  /** The `getTables` calls `listTables` makes, in the order it makes them. */
  function TableQueries(db: Source, schema: NStr, tableName: NStr): (r: Result<seq<TableQuery>, Error>)
    ensures Catalogs(db).Failure? ==> r == Failure(Runtime(UnableToListCatalogs))
    ensures r.Failure? ==> r.error == Runtime(UnableToListCatalogs) || r.error == Runtime(UnableToListSchemas)
    ensures r.Success? ==> forall i :: 0 <= i < |r.value| ==> r.value[i].tableNamePattern == TableNamePattern(tableName)
    ensures r.Success? && Catalogs(db).Success? && |Catalogs(db).value| > 0 ==>
      |r.value| == |Catalogs(db).value| && forall i :: 0 <= i < |r.value| ==> r.value[i].catalog == Catalogs(db).value[i]
    ensures r.Success? && Catalogs(db) == Success([]) ==> forall i :: 0 <= i < |r.value| ==> r.value[i].catalog.None?
  {
    var tableNamePattern := TableNamePattern(tableName);
    match Catalogs(db)
    case Failure(e) => Failure(e)
    case Success(catalogs) =>
      if Filtered(schema, tableName) then
        if |catalogs| > 0 then Success(PerCatalog(catalogs, SchemaPattern(schema), tableNamePattern))
        else Success([TableQuery(None, SchemaPattern(schema), tableNamePattern)])
      else if |catalogs| > 0 then Success(PerCatalog(catalogs, Some("%"), tableNamePattern))
      else
        match Schemas(db)
        case Failure(e) => Failure(e)
        case Success(schemas) => Success(PerSchema(schemas, tableNamePattern))
  }

  /** `listTables(schema, tableName)`. */
  function Tables(db: Source, schema: NStr, tableName: NStr): (r: Result<seq<string>, Error>)
    ensures Catalogs(db).Failure? ==> r == Failure(Runtime(UnableToListCatalogs))
    ensures r.Failure? ==> r.error.Runtime?
  {
    match TableQueries(db, schema, tableName)
    case Failure(e) => Failure(e)
    case Success(queries) =>
      match ScanTables(db, queries)
      case None => Failure(Runtime(UnableToObtainTableList))
      case Some(tables) => Success(tables)
  }

  // ---------------------------------------------------------------- primary keys and columns

  function KeySet(rows: seq<string>): set<string> {
    set k | k in rows
  }

  /** `listPrimaryKeys`: the keys of the schema-keyed lookup; only if that
      throws, also those of the catalog-keyed one. Keys read before a
      throw are kept; a second throw is swallowed. */
  function PrimaryKeys(db: Source, schema: NStr, table: string): (keys: set<string>)
    ensures KeySet(db.primaryKeys(None, schema, table).rows) <= keys
    ensures !db.primaryKeys(None, schema, table).thenThrows ==> keys == KeySet(db.primaryKeys(None, schema, table).rows)
    ensures keys <= KeySet(db.primaryKeys(None, schema, table).rows) + KeySet(db.primaryKeys(schema, None, table).rows)
  {
    var first := db.primaryKeys(None, schema, table);
    if first.thenThrows then KeySet(first.rows) + KeySet(db.primaryKeys(schema, None, table).rows)
    else KeySet(first.rows)
  }

  /** The field `columnsResultSetToField` builds for one row. */
  function ToField(row: ColumnRow, pkSet: set<string>, fc: FieldContext): (f: Field)
    ensures f.name == row.name && f.description == row.remarks
    ensures f.nativeDataType == fc.toNativeType(row.dataType) && f.derivedDataType == fc.sqlTypeToHiveType(row.dataType)
    ensures row.isNullable == Some("NO") ==> !f.nullable
    ensures row.isNullable != Some("NO") ==> f.nullable == fc.initial.nullable
    ensures row.name in pkSet ==> f.primaryKey
    ensures row.name !in pkSet ==> f.primaryKey == fc.initial.primaryKey
  {
    Field(
      row.name,
      fc.toNativeType(row.dataType),
      fc.sqlTypeToHiveType(row.dataType),
      row.remarks,
      if row.isNullable == Some("NO") then false else fc.initial.nullable,
      if row.name in pkSet then true else fc.initial.primaryKey)
  }

  /** The fields for a run of rows, in row order. */
  function FieldsOf(rows: seq<ColumnRow>, pkSet: set<string>, fc: FieldContext): (fields: seq<Field>)
    ensures |fields| == |rows|
  {
    if rows == [] then [] else FieldsOf(rows[..|rows| - 1], pkSet, fc) + [ToField(rows[|rows| - 1], pkSet, fc)]
  }

  /** `columnsResultSetToField`: a null result set gives no fields. */
  function ResultSetFields(rs: Option<Cursor<ColumnRow>>, pkSet: set<string>, fc: FieldContext): (r: Result<seq<Field>, Error>)
    ensures r.Failure? <==> rs.Some? && rs.value.thenThrows
    ensures r.Failure? ==> r.error == SqlException
    ensures r.Success? ==> |r.value| == (if rs.None? then 0 else |rs.value.rows|)
  {
    match rs
    case None => Success([])
    case Some(c) => if c.thenThrows then Failure(SqlException) else Success(FieldsOf(c.rows, pkSet, fc))
  }

  /** One `getColumns` call followed by `columnsResultSetToField`. */
  function ColumnFields(q: Query<ColumnRow>, pkSet: set<string>, fc: FieldContext): Result<seq<Field>, Error> {
    match q
    case Threw => Failure(SqlException)
    case Returned(rs) => ResultSetFields(rs, pkSet, fc)
  }

  /** `listColumns`: the schema-keyed column lookup, and the catalog-keyed
      one only when the first gave no fields. */
  function Columns(db: Source, fc: FieldContext, schema: NStr, table: string): (r: Result<seq<Field>, Error>)
    ensures r.Failure? ==> r.error == SqlException
    ensures db.columns(None, schema, table).Threw? ==> r.Failure?
  {
    var pkSet := PrimaryKeys(db, schema, table);
    match ColumnFields(db.columns(None, schema, table), pkSet, fc)
    case Failure(e) => Failure(e)
    case Success(fields) =>
      if |fields| == 0 then ColumnFields(db.columns(schema, None, table), pkSet, fc) else Success(fields)
  }

  // ---------------------------------------------------------------- table description

  /** The index of the first catalog equal to `name` ignoring case, or
      `|catalogs|` when there is none. */
  function FirstCatalogIndex(catalogs: seq<NStr>, name: string): (k: nat)
    ensures k <= |catalogs|
    ensures k < |catalogs| ==> EqualsIgnoreCase(name, catalogs[k])
    ensures forall j :: 0 <= j < k ==> !EqualsIgnoreCase(name, catalogs[j])
  {
    if catalogs == [] then 0
    else if EqualsIgnoreCase(name, catalogs[0]) then 0
    else 1 + FirstCatalogIndex(catalogs[1..], name)
  }

  /** The stream expression of `describeTable`: the first listed catalog
      equal to `name` ignoring case (never a null one). */
  function FirstCatalog(catalogs: seq<NStr>, name: string): NStr {
    var k := FirstCatalogIndex(catalogs, name);
    if k < |catalogs| then catalogs[k] else None
  }

  /** The catalog `describeTable` resolves `schema` to. */
  function ResolvedCatalog(db: Source, schema: NStr): (r: Result<NStr, Error>)
    ensures !IsNotBlank(schema) ==> r == Success(None)
    ensures r.Failure? <==> IsNotBlank(schema) && Catalogs(db).Failure?
    ensures r.Success? && r.value.Some? ==>
      IsNotBlank(schema) && r.value in Catalogs(db).value && EqualsIgnoreCase(schema.value, r.value)
  {
    if IsNotBlank(schema) then
      match Catalogs(db)
      case Failure(e) => Failure(e)
      case Success(catalogs) => Success(FirstCatalog(catalogs, schema.value))
    else Success(None)
  }

  /** The `getTables` call `describeTable` makes once the catalog is resolved. */
  function DescribeQuery(catalog: NStr, schema: NStr, table: string): TableQuery {
    TableQuery(catalog, if catalog.None? then schema else Some("%"), table)
  }

  /** The test `describeTable` applies to each row. */
  predicate RowMatches(row: TableRow, schema: NStr, table: string): (m: bool)
    ensures m ==> EqualsIgnoreCase(table, Some(row.name))
    ensures schema.None? || row.schem.None? ==> (m <==> EqualsIgnoreCase(table, Some(row.name)))
  {
    EqualsIgnoreCase(table, Some(row.name)) &&
    (schema.None? || row.schem.None? || EqualsIgnoreCase(schema.value, row.schem))
  }

  /** The index of the first matching row, or `|rows|` when none matches. */
  function FirstMatchIndex(rows: seq<TableRow>, schema: NStr, table: string): (k: nat)
    ensures k <= |rows|
    ensures k < |rows| ==> RowMatches(rows[k], schema, table)
    ensures forall j :: 0 <= j < k ==> !RowMatches(rows[j], schema, table)
  {
    if rows == [] then 0
    else if RowMatches(rows[0], schema, table) then 0
    else 1 + FirstMatchIndex(rows[1..], schema, table)
  }

  /** The schema name `describeTable` reports for the accepted row. */
  function SchemaNameOf(row: TableRow): (n: NStr)
    ensures IsNotBlank(row.schem) ==> n == row.schem
    ensures IsBlank(row.schem) ==> n == row.cat
  {
    if IsBlank(row.schem) then row.cat else row.schem
  }

  /** `describeTable(schema, table)`: `Success(None)` is Java's null. */
  function Description(db: Source, fc: FieldContext, schema: NStr, table: string): (r: Result<Option<TableSchema>, Error>)
    ensures r.Failure? && r.error.IllegalArgument? <==> table == ""
    ensures r.Success? && r.value.Some? ==> EqualsIgnoreCase(table, Some(r.value.value.name))
    ensures r.Failure? && !r.error.IllegalArgument? ==>
      r.error == Runtime(UnableToListCatalogs) || r.error == Runtime(UnableToDescribe(schema, table))
    ensures table != "" && IsNotBlank(schema) && Catalogs(db).Failure? ==> r == Failure(Runtime(UnableToListCatalogs))
  {
    if IsEmpty(Some(table)) then Failure(IllegalArgument(TableExpected))
    else
      match ResolvedCatalog(db, schema)
      case Failure(e) => Failure(e)
      case Success(catalog) =>
        match GetTables(db, DescribeQuery(catalog, schema, table))
        case None => Success(None)
        case Some(c) =>
          var k := FirstMatchIndex(c.rows, schema, table);
          if k < |c.rows| then
            match Columns(db, fc, schema, c.rows[k].name)
            case Failure(_) => Failure(Runtime(UnableToDescribe(schema, table)))
            case Success(fields) => Success(Some(TableSchema(c.rows[k].name, SchemaNameOf(c.rows[k]), fields)))
          else if c.thenThrows then Failure(Runtime(UnableToDescribe(schema, table)))
          else Success(None)
  }
}
