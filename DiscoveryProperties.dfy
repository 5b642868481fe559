/** What the parser promises, proved about the functions of `Discovery`. */
module DiscoveryProperties {
  import opened Wrappers
  import opened JavaStrings
  import opened Metadata
  import opened Discovery

  // ---------------------------------------------------------------- table entries

  /** One entry per row, in row order. */
  lemma {:induction false} EntriesAt(rows: seq<TableRow>)
    ensures |Entries(rows)| == |rows|
    ensures forall i :: 0 <= i < |rows| ==> Entries(rows)[i] == QualifiedName(rows[i])
  {
    if rows != [] {
      var init := rows[..|rows| - 1];
      EntriesAt(init);
      assert Entries(rows) == Entries(init) + [QualifiedName(rows[|rows| - 1])];
      forall i | 0 <= i < |rows|
        ensures Entries(rows)[i] == QualifiedName(rows[i])
      {
        if i < |init| {
          assert rows[i] == init[i];
        }
      }
    }
  }

  /** The index of the first '.' in `s`, or `|s|`. */
  function FirstDot(s: string): (k: nat)
    ensures k <= |s|
    ensures k < |s| ==> s[k] == '.'
    ensures forall j :: 0 <= j < k ==> s[j] != '.'
  {
    if s == [] then 0 else if s[0] == '.' then 0 else 1 + FirstDot(s[1..])
  }

  /** Splits an entry of `listTables` at its first dot. */
  function SplitEntry(entry: string): (string, string) {
    var k := FirstDot(entry);
    if k < |entry| then (entry[..k], entry[k + 1..]) else (entry, "")
  }

  /** A qualifier without a dot and the table name are recovered from the
      entry, whatever the table name contains. */
  lemma SplitQualifiedName(row: TableRow)
    requires '.' !in Qualifier(row)
    ensures SplitEntry(QualifiedName(row)) == (Qualifier(row), row.name)
  {
    var q, e := Qualifier(row), QualifiedName(row);
    assert e[|q|] == '.';
    assert forall j :: 0 <= j < |q| ==> e[j] == q[j];
    assert FirstDot(e) == |q|;
    assert e[..|q|] == q;
    assert e[|q| + 1..] == row.name;
  }

  /** The qualifier is chosen by a null test: a blank schema still wins
      over the catalog, and a null catalog prints as "null". */
  lemma QualifierIsNullTest(cat: NStr, name: string)
    ensures QualifiedName(TableRow(cat, Some(""), name)) == "." + name
    ensures QualifiedName(TableRow(cat, Some(" "), name)) == " ." + name
    ensures QualifiedName(TableRow(None, None, name)) == "null." + name
  {
  }

  // ---------------------------------------------------------------- scanning partitions

  /** Reference definition: the entries of every partition, front to back. */
  function AllEntries(db: Source, queries: seq<TableQuery>): seq<string> {
    if queries == [] then [] else ResultEntries(GetTables(db, queries[0])) + AllEntries(db, queries[1..])
  }

  lemma {:induction false} AllEntriesSnoc(db: Source, queries: seq<TableQuery>, q: TableQuery)
    ensures AllEntries(db, queries + [q]) == AllEntries(db, queries) + ResultEntries(GetTables(db, q))
  {
    if queries == [] {
      assert [] + [q] == [q];
      assert [q][1..] == [];
    } else {
      assert (queries + [q])[0] == queries[0];
      assert (queries + [q])[1..] == queries[1..] + [q];
      AllEntriesSnoc(db, queries[1..], q);
    }
  }

  /** Scanning fails exactly when reading some partition throws; otherwise
      it yields every partition's entries, in query order. */
  lemma {:induction false} ScanTablesCollects(db: Source, queries: seq<TableQuery>)
    ensures ScanTables(db, queries).None? <==> exists i :: 0 <= i < |queries| && Aborts(db, queries[i])
    ensures ScanTables(db, queries).Some? ==> ScanTables(db, queries).value == AllEntries(db, queries)
  {
    if queries != [] {
      var init, last := queries[..|queries| - 1], queries[|queries| - 1];
      ScanTablesCollects(db, init);
      assert queries == init + [last];
      AllEntriesSnoc(db, init, last);
      if ScanTables(db, init).None? {
        var i :| 0 <= i < |init| && Aborts(db, init[i]);
        assert queries[i] == init[i];
      }
      if exists i :: 0 <= i < |queries| && Aborts(db, queries[i]) {
        var i :| 0 <= i < |queries| && Aborts(db, queries[i]);
        if i < |init| {
          assert init[i] == queries[i];
        }
      }
    }
  }

  /** Once a prefix of the queries aborts, so does the whole scan. */
  lemma {:induction false} ScanStaysAborted(db: Source, queries: seq<TableQuery>, k: nat)
    requires k <= |queries|
    requires ScanTables(db, queries[..k]) == None
    ensures ScanTables(db, queries) == None
    decreases |queries| - k
  {
    if k < |queries| {
      assert queries[..k + 1][..k] == queries[..k];
      ScanStaysAborted(db, queries, k + 1);
    } else {
      assert queries[..k] == queries;
    }
  }

  /** A `getTables` call that throws neither aborts the listing nor adds
      anything to it. */
  lemma FailedCallContributesNothing(db: Source, queries: seq<TableQuery>, q: TableQuery)
    requires db.tables(q.catalog, q.schemaPattern, q.tableNamePattern).Threw?
    ensures ScanTables(db, queries + [q]) == ScanTables(db, queries)
  {
    var all := queries + [q];
    assert all[..|all| - 1] == queries && all[|all| - 1] == q;
    assert GetTables(db, q).None?;
    match ScanTables(db, queries)
    case None =>
    case Some(found) => assert found + ResultEntries(GetTables(db, q)) == found;
  }

  // ---------------------------------------------------------------- listTables

  /** With catalogs: one query per catalog in catalog order; the schema
      pattern is the supplied schema (or "%" when null) if a filter is
      present, "%" otherwise. */
  lemma ListTablesWithCatalogs(db: Source, schema: NStr, tableName: NStr)
    requires Catalogs(db).Success? && |Catalogs(db).value| > 0
    ensures TableQueries(db, schema, tableName).Success?
    ensures var cs, qs := Catalogs(db).value, TableQueries(db, schema, tableName).value;
      && |qs| == |cs|
      && forall i :: 0 <= i < |qs| ==>
           && qs[i].catalog == cs[i]
           && qs[i].schemaPattern == (if Filtered(schema, tableName) then (if schema.None? then Some("%") else schema) else Some("%"))
           && qs[i].tableNamePattern == (if tableName.None? then "%" else tableName.value)
  {
  }

  /** Without catalogs: a single null-catalog query when a filter is
      present, else one null-catalog query per schema in schema order. */
  lemma ListTablesWithoutCatalogs(db: Source, schema: NStr, tableName: NStr)
    requires Catalogs(db) == Success([])
    ensures Filtered(schema, tableName) ==>
      TableQueries(db, schema, tableName) == Success([TableQuery(None, SchemaPattern(schema), TableNamePattern(tableName))])
    ensures !Filtered(schema, tableName) && Schemas(db).Failure? ==>
      TableQueries(db, schema, tableName) == Failure(Runtime(UnableToListSchemas))
    ensures !Filtered(schema, tableName) && Schemas(db).Success? ==>
      var ss, qs := Schemas(db).value, TableQueries(db, schema, tableName);
      && qs.Success? && |qs.value| == |ss|
      && forall i :: 0 <= i < |ss| ==> qs.value[i] == TableQuery(None, ss[i], TableNamePattern(tableName))
  {
  }

  /** The listing as a whole: it fails with the enumeration's own error
      when the catalogs, or (without catalogs and filters) the schemas,
      cannot be listed; it fails when reading a result set throws; and
      otherwise it is every partition's entries in query order. */
  lemma ListTablesResult(db: Source, schema: NStr, tableName: NStr)
    ensures Catalogs(db).Failure? ==> Tables(db, schema, tableName) == Failure(Runtime(UnableToListCatalogs))
    ensures Catalogs(db) == Success([]) && !Filtered(schema, tableName) && Schemas(db).Failure? ==>
      Tables(db, schema, tableName) == Failure(Runtime(UnableToListSchemas))
    ensures TableQueries(db, schema, tableName).Failure? ==>
      Tables(db, schema, tableName) == Failure(TableQueries(db, schema, tableName).error)
    ensures TableQueries(db, schema, tableName).Success? ==>
      var qs := TableQueries(db, schema, tableName).value;
      Tables(db, schema, tableName) ==
        if exists i :: 0 <= i < |qs| && Aborts(db, qs[i]) then Failure(Runtime(UnableToObtainTableList))
        else Success(AllEntries(db, qs))
  {
    if TableQueries(db, schema, tableName).Success? {
      ScanTablesCollects(db, TableQueries(db, schema, tableName).value);
    }
  }

  /** A blank but non-null schema with a table filter is passed as the
      pattern unchanged; only null becomes "%". */
  lemma BlankSchemaPatternKept(db: Source, table: string)
    requires Catalogs(db).Success?
    requires IsNotBlank(Some(table))
    ensures TableQueries(db, Some(" "), Some(table)).Success?
    ensures forall q :: q in TableQueries(db, Some(" "), Some(table)).value ==> q.schemaPattern == Some(" ")
  {
  }

  // ---------------------------------------------------------------- primary keys

  /** The primary-key lookup never fails. Its keys are those of the
      schema-keyed lookup, plus, only when that one throws, those of the
      catalog-keyed lookup. */
  lemma PrimaryKeysLookup(db: Source, schema: NStr, table: string)
    ensures var first, second := db.primaryKeys(None, schema, table), db.primaryKeys(schema, None, table);
      forall k :: k in PrimaryKeys(db, schema, table) <==>
        (k in first.rows || (first.thenThrows && k in second.rows))
  {
  }

  /** An empty but successful schema-keyed lookup triggers no retry: the
      catalog-keyed lookup cannot affect the result. */
  lemma PrimaryKeysNoRetry(db1: Source, db2: Source, schema: NStr, table: string)
    requires db1.primaryKeys(None, schema, table) == db2.primaryKeys(None, schema, table)
    requires !db1.primaryKeys(None, schema, table).thenThrows
    ensures PrimaryKeys(db1, schema, table) == PrimaryKeys(db2, schema, table)
  {
  }

  /** Both lookups throwing before any row gives the empty set. */
  lemma PrimaryKeysBothThrow(db: Source, schema: NStr, table: string)
    requires db.primaryKeys(None, schema, table) == Cursor([], true)
    requires db.primaryKeys(schema, None, table) == Cursor([], true)
    ensures PrimaryKeys(db, schema, table) == {}
  {
  }

  // ---------------------------------------------------------------- columns and fields

  /** One field per row, in row order. */
  lemma {:induction false} FieldsAt(rows: seq<ColumnRow>, pkSet: set<string>, fc: FieldContext)
    ensures |FieldsOf(rows, pkSet, fc)| == |rows|
    ensures forall i :: 0 <= i < |rows| ==> FieldsOf(rows, pkSet, fc)[i] == ToField(rows[i], pkSet, fc)
  {
    if rows != [] {
      FieldsAt(rows[..|rows| - 1], pkSet, fc);
    }
  }

  /** The state of a `DefaultField` before any setter: nullable, not a key. */
  predicate UsualDefaults(fc: FieldContext) {
    fc.initial.nullable && !fc.initial.primaryKey
  }

  /** `columnsResultSetToField`: a null result set gives no fields; a result
      set that throws gives an exception; otherwise one field per row, in
      order, carrying the row's name, types and remarks, not nullable
      exactly when IS_NULLABLE is "NO", and a primary key exactly when its
      name is in the key set. */
  lemma ResultSetFieldsMapping(rs: Option<Cursor<ColumnRow>>, pkSet: set<string>, fc: FieldContext)
    requires UsualDefaults(fc)
    ensures rs.None? ==> ResultSetFields(rs, pkSet, fc) == Success([])
    ensures rs.Some? && rs.value.thenThrows ==> ResultSetFields(rs, pkSet, fc) == Failure(SqlException)
    ensures rs.Some? && !rs.value.thenThrows ==>
      var rows, r := rs.value.rows, ResultSetFields(rs, pkSet, fc);
      && r.Success? && |r.value| == |rows|
      && forall i :: 0 <= i < |rows| ==>
           && r.value[i].name == rows[i].name
           && r.value[i].nativeDataType == fc.toNativeType(rows[i].dataType)
           && r.value[i].derivedDataType == fc.sqlTypeToHiveType(rows[i].dataType)
           && r.value[i].description == rows[i].remarks
           && (!r.value[i].nullable <==> rows[i].isNullable == Some("NO"))
           && (r.value[i].primaryKey <==> rows[i].name in pkSet)
  {
    if rs.Some? {
      FieldsAt(rs.value.rows, pkSet, fc);
    }
  }

  /** Key membership is case-sensitive and IS_NULLABLE is compared exactly:
      "id" in the key set does not mark column "ID", and "no" leaves the
      field nullable. */
  lemma ExactComparisons(fc: FieldContext)
    requires UsualDefaults(fc)
    ensures !ToField(ColumnRow("ID", 4, None, Some("YES")), {"id"}, fc).primaryKey
    ensures ToField(ColumnRow("ID", 4, None, Some("no")), {"ID"}, fc).nullable
  {
  }

  /** When the schema-keyed column query gives fields or throws, that is
      the result, and the catalog-keyed query is not consulted: a source
      that differs only there gives the same columns. */
  lemma ColumnsNoRetry(db1: Source, db2: Source, fc: FieldContext, schema: NStr, table: string)
    requires db1.primaryKeys == db2.primaryKeys
    requires db1.columns(None, schema, table) == db2.columns(None, schema, table)
    requires var first := ColumnFields(db1.columns(None, schema, table), PrimaryKeys(db1, schema, table), fc);
      first.Failure? || |first.value| > 0
    ensures Columns(db1, fc, schema, table) == Columns(db2, fc, schema, table)
    ensures Columns(db1, fc, schema, table) ==
      ColumnFields(db1.columns(None, schema, table), PrimaryKeys(db1, schema, table), fc)
  {
    assert PrimaryKeys(db1, schema, table) == PrimaryKeys(db2, schema, table);
  }

  /** When the schema-keyed query gives no fields, the result is that of
      the catalog-keyed query, with the same key set. */
  lemma ColumnsRetry(db: Source, fc: FieldContext, schema: NStr, table: string)
    requires ColumnFields(db.columns(None, schema, table), PrimaryKeys(db, schema, table), fc) == Success([])
    ensures Columns(db, fc, schema, table) == ColumnFields(db.columns(schema, None, table), PrimaryKeys(db, schema, table), fc)
  {
  }

  // ---------------------------------------------------------------- describeTable

  /** Only an empty table name is rejected, and it is rejected before the
      source is consulted; a whitespace-only name is accepted. */
  lemma DescribeRejectsOnlyEmpty(db: Source, fc: FieldContext, schema: NStr, table: string)
    ensures Description(db, fc, schema, table).Failure? && Description(db, fc, schema, table).error.IllegalArgument?
            <==> table == ""
    ensures table == "" ==> Description(db, fc, schema, table) == Failure(IllegalArgument(TableExpected))
  {
  }

  /** Catalog resolution: with a non-blank schema, the first listed catalog
      equal to it ignoring case, queried with schema pattern "%"; with none
      (or a blank schema), no catalog and the schema as given. */
  lemma DescribeCatalogResolution(db: Source, schema: NStr, table: string)
    ensures !IsNotBlank(schema) ==> ResolvedCatalog(db, schema) == Success(None)
    ensures IsNotBlank(schema) && Catalogs(db).Failure? ==> ResolvedCatalog(db, schema) == Failure(Runtime(UnableToListCatalogs))
    ensures IsNotBlank(schema) && Catalogs(db).Success? ==>
      var cs, c := Catalogs(db).value, ResolvedCatalog(db, schema);
      && c.Success?
      && (c.value.None? <==> forall i :: 0 <= i < |cs| ==> !EqualsIgnoreCase(schema.value, cs[i]))
      && (c.value.Some? ==> exists k :: 0 <= k < |cs| && cs[k] == c.value && EqualsIgnoreCase(schema.value, cs[k]) &&
                                        forall j :: 0 <= j < k ==> !EqualsIgnoreCase(schema.value, cs[j]))
    ensures forall c: NStr :: DescribeQuery(c, schema, table).schemaPattern == (if c.Some? then Some("%") else schema)
  {
  }

  /** The description found: the first row matching the table name (and the
      schema, where both are known) ignoring case, named as that row,
      with the row's schema if not blank, else its catalog, and the columns
      listed for the requested schema. With no matching row the result is
      null, unless reading the rows throws. */
  lemma DescribeResult(db: Source, fc: FieldContext, schema: NStr, table: string, catalog: NStr, c: Cursor<TableRow>)
    requires table != ""
    requires ResolvedCatalog(db, schema) == Success(catalog)
    requires GetTables(db, DescribeQuery(catalog, schema, table)) == Some(c)
    ensures var d := Description(db, fc, schema, table);
      d.Success? && d.value.Some? ==>
        var ts := d.value.value;
        exists k :: 0 <= k < |c.rows| && RowMatches(c.rows[k], schema, table) &&
          (forall j :: 0 <= j < k ==> !RowMatches(c.rows[j], schema, table)) &&
          ts.name == c.rows[k].name && ts.schemaName == SchemaNameOf(c.rows[k]) &&
          Columns(db, fc, schema, ts.name) == Success(ts.fields) &&
          EqualsIgnoreCase(table, Some(ts.name))
    ensures Description(db, fc, schema, table) == Success(None) <==>
      !c.thenThrows && forall j :: 0 <= j < |c.rows| ==> !RowMatches(c.rows[j], schema, table)
    ensures (forall j :: 0 <= j < |c.rows| ==> !RowMatches(c.rows[j], schema, table)) && c.thenThrows ==>
      Description(db, fc, schema, table) == Failure(Runtime(UnableToDescribe(schema, table)))
  {
  }

  /** The first matching row decides the outcome: its description with
      the columns listed for the requested schema, or, when listing them
      fails, the "Unable to describe" error. Later rows, and whether
      reading them throws, play no part. */
  lemma DescribeFirstMatch(db: Source, fc: FieldContext, schema: NStr, table: string, catalog: NStr, c: Cursor<TableRow>, k: nat)
    requires table != ""
    requires ResolvedCatalog(db, schema) == Success(catalog)
    requires GetTables(db, DescribeQuery(catalog, schema, table)) == Some(c)
    requires k < |c.rows| && RowMatches(c.rows[k], schema, table)
    requires forall j :: 0 <= j < k ==> !RowMatches(c.rows[j], schema, table)
    ensures Columns(db, fc, schema, c.rows[k].name).Failure? ==>
      Description(db, fc, schema, table) == Failure(Runtime(UnableToDescribe(schema, table)))
    ensures Columns(db, fc, schema, c.rows[k].name).Success? ==>
      Description(db, fc, schema, table) ==
        Success(Some(TableSchema(c.rows[k].name, SchemaNameOf(c.rows[k]), Columns(db, fc, schema, c.rows[k].name).value)))
  {
    assert FirstMatchIndex(c.rows, schema, table) == k;
  }

  /** A `getTables` call that throws in `describeTable` means "not found". */
  lemma DescribeQueryThrows(db: Source, fc: FieldContext, schema: NStr, table: string, catalog: NStr)
    requires table != ""
    requires ResolvedCatalog(db, schema) == Success(catalog)
    requires var q := DescribeQuery(catalog, schema, table); db.tables(q.catalog, q.schemaPattern, q.tableNamePattern).Threw?
    ensures Description(db, fc, schema, table) == Success(None)
  {
  }

  /** The two remaining paths of `describeTable`: a non-blank schema whose
      catalogs cannot be listed lets that error escape, and a `getTables`
      call that returns a null result set without throwing means "not
      found". */
  lemma DescribeOtherPaths(db: Source, fc: FieldContext, schema: NStr, table: string, catalog: NStr)
    requires table != ""
    ensures IsNotBlank(schema) && Catalogs(db).Failure? ==>
      Description(db, fc, schema, table) == Failure(Runtime(UnableToListCatalogs))
    ensures ResolvedCatalog(db, schema) == Success(catalog) && GetTables(db, DescribeQuery(catalog, schema, table)).None? ==>
      Description(db, fc, schema, table) == Success(None)
  {
  }

  /** The schema name uses a blank test where row matching uses a null
      test: a blank schema column is reported as the catalog, yet must
      still equal the requested schema for the row to match. */
  lemma SchemaNameBlankTest(cat: NStr, name: string)
    ensures SchemaNameOf(TableRow(cat, Some(" "), name)) == cat
    ensures SchemaNameOf(TableRow(cat, Some("S"), name)) == Some("S")
    ensures !RowMatches(TableRow(cat, Some(" "), name), Some("S"), name)
    ensures RowMatches(TableRow(cat, None, name), Some("S"), name)
  {
    assert !IsWhitespace(Some("S").value[0]);
    assert Fold("S"[0]) != Fold(" "[0]);
  }
}
