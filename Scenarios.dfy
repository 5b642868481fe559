/** Worked cases: a vendor without catalogs whose schema SALES holds the
    table ORDERS with columns ID (not null, primary key) and AMOUNT. */
module Scenarios {
  import opened Wrappers
  import opened JavaStrings
  import opened Metadata
  import opened Discovery
  import opened DiscoveryProperties

  const OrdersRow: TableRow := TableRow(None, Some("SALES"), "ORDERS")
  const IdColumn: ColumnRow := ColumnRow("ID", 4, None, Some("NO"))
  const AmountColumn: ColumnRow := ColumnRow("AMOUNT", 3, None, Some("YES"))

  /** The vendor: no catalogs, one schema. Its table lookup matches the
      schema ignoring case and takes "%" or the exact table name; its key
      and column lookups ignore the schema. */
  function SalesSource(): Source {
    Source(
      Cursor([], false),
      Cursor([Some("SALES")], false),
      (c: NStr, s: NStr, t: string) =>
        if c.None? && s.Some? && EqualsIgnoreCase(s.value, Some("SALES")) && (t == "ORDERS" || t == "%")
        then Returned(Some(Cursor([OrdersRow], false)))
        else Returned(Some(Cursor([], false))),
      (c: NStr, s: NStr, t: string) =>
        if c.None? && t == "ORDERS" then Cursor(["ID"], false) else Cursor([], false),
      (c: NStr, s: NStr, t: string) =>
        if c.None? && t == "ORDERS" then Returned(Some(Cursor([IdColumn, AmountColumn], false)))
        else Returned(Some(Cursor([], false))))
  }

  function ExpectedFields(fc: FieldContext): seq<Field> {
    [ Field("ID", fc.toNativeType(4), fc.sqlTypeToHiveType(4), None, false, true),
      Field("AMOUNT", fc.toNativeType(3), fc.sqlTypeToHiveType(3), None, true, false) ]
  }

  lemma SalesColumns(fc: FieldContext, schema: NStr)
    requires UsualDefaults(fc)
    ensures Columns(SalesSource(), fc, schema, "ORDERS") == Success(ExpectedFields(fc))
  {
    var db := SalesSource();
    assert KeySet(["ID"]) == {"ID"};
    assert PrimaryKeys(db, schema, "ORDERS") == {"ID"};
    var rows := [IdColumn, AmountColumn];
    assert ColumnFields(db.columns(None, schema, "ORDERS"), {"ID"}, fc) == Success(FieldsOf(rows, {"ID"}, fc));
    FieldsAt(rows, {"ID"}, fc);
    assert ToField(IdColumn, {"ID"}, fc) == ExpectedFields(fc)[0];
    assert "AMOUNT" !in {"ID"};
    assert ToField(AmountColumn, {"ID"}, fc) == ExpectedFields(fc)[1];
    assert FieldsOf(rows, {"ID"}, fc) == ExpectedFields(fc);
  }

  /** describeTable("SALES", "ORDERS") finds the table with both fields. */
  lemma DescribeSalesOrders(fc: FieldContext)
    requires UsualDefaults(fc)
    ensures Description(SalesSource(), fc, Some("SALES"), "ORDERS") ==
      Success(Some(TableSchema("ORDERS", Some("SALES"), ExpectedFields(fc))))
  {
    var db := SalesSource();
    assert !IsWhitespace(Some("SALES").value[0]);
    assert ResolvedCatalog(db, Some("SALES")) == Success(None);
    assert GetTables(db, DescribeQuery(None, Some("SALES"), "ORDERS")) == Some(Cursor([OrdersRow], false));
    assert RowMatches(OrdersRow, Some("SALES"), "ORDERS");
    assert !IsWhitespace(OrdersRow.schem.value[0]);
    SalesColumns(fc, Some("SALES"));
  }

  /** describeTable("sales", "ORDERS") matches ignoring case and reports
      the vendor's own spelling of the schema. */
  lemma DescribeLowerCaseSchema(fc: FieldContext)
    requires UsualDefaults(fc)
    ensures Description(SalesSource(), fc, Some("sales"), "ORDERS") ==
      Success(Some(TableSchema("ORDERS", Some("SALES"), ExpectedFields(fc))))
  {
    var db := SalesSource();
    assert !IsWhitespace(Some("sales").value[0]);
    assert ResolvedCatalog(db, Some("sales")) == Success(None);
    assert EqualsIgnoreCase("sales", Some("SALES"));
    assert GetTables(db, DescribeQuery(None, Some("sales"), "ORDERS")) == Some(Cursor([OrdersRow], false));
    assert RowMatches(OrdersRow, Some("sales"), "ORDERS");
    assert !IsWhitespace(OrdersRow.schem.value[0]);
    SalesColumns(fc, Some("sales"));
  }

  /** With no filters and no catalogs the listing walks the schemas. */
  lemma ListSalesTables()
    ensures Tables(SalesSource(), None, None) == Success(["SALES.ORDERS"])
  {
    var db := SalesSource();
    var q := TableQuery(None, Some("SALES"), "%");
    assert PerSchema([Some("SALES")], "%") == [q];
    assert TableQueries(db, None, None) == Success([q]);
    var empty: seq<TableQuery> := [];
    assert [q][..0] == empty;
    assert EqualsIgnoreCase("SALES", Some("SALES"));
    assert db.tables(None, Some("SALES"), "%") == Returned(Some(Cursor([OrdersRow], false)));
    assert GetTables(db, q) == Some(Cursor([OrdersRow], false));
    assert Entries([OrdersRow]) == ["SALES.ORDERS"] by {
      assert [OrdersRow][..0] == [];
      assert Qualifier(OrdersRow) == "SALES";
      assert "SALES" + "." + "ORDERS" == "SALES.ORDERS";
    }
    assert ScanTables(db, empty) == Some([]);
    assert !Aborts(db, q);
    assert ResultEntries(GetTables(db, q)) == ["SALES.ORDERS"];
    assert ScanTables(db, [q]) == Some(["SALES.ORDERS"]);
  }
}
