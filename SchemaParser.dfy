/** `DBSchemaParser`: each operation walks the result sets of the metadata
    source the way the Java does, and is proved to compute the matching
    function of `Discovery`. */
module SchemaParser {
  import opened Wrappers
  import opened JavaStrings
  import opened Metadata
  import opened Discovery
  import opened DiscoveryProperties

  class DBSchemaParser {
    /** The metadata reachable through the parser's data source. */
    const ds: Source
    /** The field helpers the parser delegates to. */
    const fc: FieldContext

    constructor (ds: Source, fc: FieldContext)
      ensures this.ds == ds && this.fc == fc
    {
      this.ds := ds;
      this.fc := fc;
    }

    /** Reads a cursor of names into a list, failing if the cursor throws. */
    method ReadNames(rs: Cursor<NStr>, message: string) returns (r: Result<seq<NStr>, Error>)
      ensures r == ReadAll(rs, message)
    {
      var names: seq<NStr> := [];
      var i := 0;
      while i < |rs.rows|
        invariant 0 <= i <= |rs.rows|
        invariant names == rs.rows[..i]
      {
        names := names + [rs.rows[i]];
        i := i + 1;
      }
      assert names == rs.rows;
      if rs.thenThrows {
        return Failure(Runtime(message));
      }
      return Success(names);
    }

    method ListSchemas() returns (r: Result<seq<NStr>, Error>)
      ensures r == Schemas(ds)
    {
      r := ReadNames(ds.schemas, UnableToListSchemas);
    }

    method ListCatalogs() returns (r: Result<seq<NStr>, Error>)
      ensures r == Catalogs(ds)
    {
      r := ReadNames(ds.catalogs, UnableToListCatalogs);
    }

    /** The inner loop of `listTables`: `addTableToList` for every row of a
        (possibly null) result set; `ok` is false when reading it throws. */
    method AddTables(result: Option<Cursor<TableRow>>, tables: seq<string>) returns (tables': seq<string>, ok: bool)
      ensures ok <==> !(result.Some? && result.value.thenThrows)
      ensures tables' == tables + ResultEntries(result)
    {
      tables' := tables;
      if result.Some? {
        var rows := result.value.rows;
        var i := 0;
        while i < |rows|
          invariant 0 <= i <= |rows|
          invariant tables' == tables + Entries(rows[..i])
        {
          assert rows[..i + 1][..i] == rows[..i];
          tables' := tables' + [QualifiedName(rows[i])];
          i := i + 1;
        }
        assert rows[..i] == rows;
      }
      ok := !(result.Some? && result.value.thenThrows);
    }

    /** One `getTables` call per catalog, in catalog order. */
    method CatalogTables(catalogs: seq<NStr>, schemaPattern: NStr, tableNamePattern: string) returns (r: Option<seq<string>>)
      ensures r == ScanTables(ds, PerCatalog(catalogs, schemaPattern, tableNamePattern))
    {
      ghost var queries := PerCatalog(catalogs, schemaPattern, tableNamePattern);
      var tables: seq<string> := [];
      var i := 0;
      while i < |catalogs|
        invariant 0 <= i <= |catalogs|
        invariant ScanTables(ds, queries[..i]) == Some(tables)
      {
        var query := TableQuery(catalogs[i], schemaPattern, tableNamePattern);
        assert queries[..i + 1][..i] == queries[..i] && queries[i] == query;
        var ok;
        tables, ok := AddTables(GetTables(ds, query), tables);
        if !ok {
          ScanStaysAborted(ds, queries, i + 1);
          return None;
        }
        i := i + 1;
      }
      assert queries[..i] == queries;
      return Some(tables);
    }

    /** One null-catalog `getTables` call per schema, in schema order. */
    method SchemaTables(schemas: seq<NStr>, tableNamePattern: string) returns (r: Option<seq<string>>)
      ensures r == ScanTables(ds, PerSchema(schemas, tableNamePattern))
    {
      ghost var queries := PerSchema(schemas, tableNamePattern);
      var tables: seq<string> := [];
      var i := 0;
      while i < |schemas|
        invariant 0 <= i <= |schemas|
        invariant ScanTables(ds, queries[..i]) == Some(tables)
      {
        var query := TableQuery(None, schemas[i], tableNamePattern);
        assert queries[..i + 1][..i] == queries[..i] && queries[i] == query;
        var ok;
        tables, ok := AddTables(GetTables(ds, query), tables);
        if !ok {
          ScanStaysAborted(ds, queries, i + 1);
          return None;
        }
        i := i + 1;
      }
      assert queries[..i] == queries;
      return Some(tables);
    }

    /** `listTables(schema, tableName)`. */
    method ListTables(schema: NStr, tableName: NStr) returns (r: Result<seq<string>, Error>)
      ensures r == Tables(ds, schema, tableName)
    {
      var schemaPattern := if schema.Some? then schema else Some("%");
      var tableNamePattern := if tableName.Some? then tableName.value else "%";
      var catalogs := ListCatalogs();
      if catalogs.Failure? {
        return Failure(catalogs.error);
      }
      var hasCatalogs := |catalogs.value| > 0;
      var found: Option<seq<string>>;
      if IsNotBlank(schema) || IsNotBlank(tableName) {
        if hasCatalogs {
          found := CatalogTables(catalogs.value, schemaPattern, tableNamePattern);
        } else {
          var query := TableQuery(None, schemaPattern, tableNamePattern);
          assert [query][..0] == [];
          var tables, ok := AddTables(GetTables(ds, query), []);
          found := if ok then Some(tables) else None;
          assert found == ScanTables(ds, [query]);
        }
      } else {
        if hasCatalogs {
          found := CatalogTables(catalogs.value, Some("%"), tableNamePattern);
        } else {
          var schemas := ListSchemas();
          if schemas.Failure? {
            return Failure(schemas.error);
          }
          found := SchemaTables(schemas.value, tableNamePattern);
        }
      }
      if found.None? {
        return Failure(Runtime(UnableToObtainTableList));
      }
      return Success(found.value);
    }

    /** Adds every key of a primary-key result set to `keys`. */
    method AddKeys(rs: Cursor<string>, keys: set<string>) returns (keys': set<string>)
      ensures keys' == keys + KeySet(rs.rows)
    {
      keys' := keys;
      var i := 0;
      while i < |rs.rows|
        invariant 0 <= i <= |rs.rows|
        invariant keys' == keys + KeySet(rs.rows[..i])
      {
        assert KeySet(rs.rows[..i + 1]) == KeySet(rs.rows[..i]) + {rs.rows[i]} by {
          assert rs.rows[..i + 1] == rs.rows[..i] + [rs.rows[i]];
        }
        keys' := keys' + {rs.rows[i]};
        i := i + 1;
      }
      assert rs.rows[..i] == rs.rows;
    }

    /** `listPrimaryKeys(conn, schema, tableName)`. */
    method ListPrimaryKeys(schema: NStr, tableName: string) returns (primaryKeys: set<string>)
      ensures primaryKeys == PrimaryKeys(ds, schema, tableName)
    {
      primaryKeys := {};
      var rs := ds.primaryKeys(None, schema, tableName);
      primaryKeys := AddKeys(rs, primaryKeys);
      if rs.thenThrows {
        // the schema-keyed lookup threw: look the name up as a catalog
        var rs2 := ds.primaryKeys(schema, None, tableName);
        primaryKeys := AddKeys(rs2, primaryKeys);
      }
    }

    /** `columnsResultSetToField(columns, pkSet)`. */
    method ColumnsResultSetToField(columns: Option<Cursor<ColumnRow>>, pkSet: set<string>) returns (r: Result<seq<Field>, Error>)
      ensures r == ResultSetFields(columns, pkSet, fc)
    {
      var fields: seq<Field> := [];
      if columns.Some? {
        var rows := columns.value.rows;
        var i := 0;
        while i < |rows|
          invariant 0 <= i <= |rows|
          invariant fields == FieldsOf(rows[..i], pkSet, fc)
        {
          assert rows[..i + 1][..i] == rows[..i];
          var row := rows[i];
          var field := fc.initial;
          field := field.(name := row.name);
          field := field.(nativeDataType := fc.toNativeType(row.dataType));
          field := field.(derivedDataType := fc.sqlTypeToHiveType(row.dataType));
          field := field.(description := row.remarks);
          if row.isNullable == Some("NO") {
            field := field.(nullable := false);
          }
          if field.name in pkSet {
            field := field.(primaryKey := true);
          }
          fields := fields + [field];
          i := i + 1;
        }
        assert rows[..i] == rows;
        if columns.value.thenThrows {
          return Failure(SqlException);
        }
      }
      return Success(fields);
    }

    /** `listColumns(conn, schema, tableName)`. */
    method ListColumns(schema: NStr, tableName: string) returns (r: Result<seq<Field>, Error>)
      ensures r == Columns(ds, fc, schema, tableName)
    {
      var pkSet := ListPrimaryKeys(schema, tableName);
      var columns := ds.columns(None, schema, tableName);
      if columns.Threw? {
        return Failure(SqlException);
      }
      var fields := ColumnsResultSetToField(columns.rs, pkSet);
      if fields.Success? && |fields.value| == 0 {
        // no fields: look the name up as a catalog (as MySQL needs)
        columns := ds.columns(schema, None, tableName);
        if columns.Threw? {
          return Failure(SqlException);
        }
        fields := ColumnsResultSetToField(columns.rs, pkSet);
      }
      return fields;
    }

    /** `describeTable(schema, table)`; `Success(None)` is Java's null. */
    method DescribeTable(schema: NStr, table: string) returns (r: Result<Option<TableSchema>, Error>)
      ensures r == Description(ds, fc, schema, table)
    {
      if IsEmpty(Some(table)) {
        return Failure(IllegalArgument(TableExpected));
      }
      var catalog: NStr := None;
      if IsNotBlank(schema) {
        var catalogs := ListCatalogs();
        if catalogs.Failure? {
          return Failure(catalogs.error);
        }
        catalog := FirstCatalog(catalogs.value, schema.value);
      }
      var result := GetTables(ds, TableQuery(catalog, if catalog.None? then schema else Some("%"), table));
      if result.Some? {
        var rows := result.value.rows;
        var i := 0;
        while i < |rows|
          invariant 0 <= i <= |rows|
          invariant forall j :: 0 <= j < i ==> !RowMatches(rows[j], schema, table)
          invariant i <= FirstMatchIndex(rows, schema, table)
        {
          var cat, schem, tableName := rows[i].cat, rows[i].schem, rows[i].name;
          if EqualsIgnoreCase(table, Some(tableName)) && (schema.None? || schem.None? || EqualsIgnoreCase(schema.value, schem)) {
            assert FirstMatchIndex(rows, schema, table) == i;
            var fields := ListColumns(schema, tableName);
            if fields.Failure? {
              return Failure(Runtime(UnableToDescribe(schema, table)));
            }
            return Success(Some(TableSchema(tableName, if IsBlank(schem) then cat else schem, fields.value)));
          }
          i := i + 1;
        }
        if result.value.thenThrows {
          return Failure(Runtime(UnableToDescribe(schema, table)));
        }
      }
      return Success(None);
    }
  }
}
