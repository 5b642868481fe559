# DBSchemaParser, modelled in Dafny

`DBSchemaParser` discovers the tables and columns of a relational database
through JDBC `DatabaseMetaData`. It reconciles vendors that key tables by
catalog (MySQL), by schema (Teradata), or by both. This project models its
whole decision procedure:

- enumerating catalogs and schemas;
- choosing the `getTables` calls of `listTables` and formatting each hit as
  `schema-or-catalog.table`;
- resolving a schema name as a catalog in `describeTable` and accepting the
  first matching row;
- the primary-key fallback (retry catalog-keyed only when the schema-keyed
  lookup throws);
- the column fallback (retry catalog-keyed only when the first lookup gives
  no fields);
- mapping column rows to fields.

## Model

The database is an abstract metadata source (`Metadata.Source`). A
`ResultSet` is a `Cursor`: the rows it delivers in order, and whether
advancing past them throws an `SQLException`. So one datatype covers a call
that throws at once, a call that throws part way, and a clean end.
`getTables` and `getColumns` return a `Query`: the call threw, or it returned
a result set that may be null. Java's null strings are `Option<string>`.
Exceptions leaving the parser are the `Error` datatype, with the source's
messages.

`Discovery` defines what each operation computes, as pure functions.
`SchemaParser.DBSchemaParser` is the class. Its methods run the same
`while (rs.next())` loops as the Java, appending to local lists and sets, and
each method is proved equal to its function. `DiscoveryProperties` proves the
promised properties about those functions. `Scenarios` works through
concrete databases.

Three behaviours of the source that one might expect to be otherwise, and
that the model follows as written:
- one might expect blank tests when `describeTable` matches rows; the source
  tests the requested schema and TABLE_SCHEM for null (line 195);
- one might expect an empty key set when both primary-key lookups throw; the
  source keeps the keys it read before the throw (lines 211-233);
- a failure in `listSchemas` during `listTables` escapes as its own "Unable to
  list schemas" exception. It is a `RuntimeException`, so the `SQLException`
  handler does not catch it (lines 157, 165).

| member | source | states |
|---|---|---|
| `Discovery.ReadAll` | core/schema-discovery/schema-discovery-rdbms/src/main/java/com/thinkbiganalytics/schema/DBSchemaParser.java:45-71 | an enumeration succeeds exactly when its result set does not throw; then it is all the rows in source order, otherwise the RuntimeException with the operation's message |
| `SchemaParser.DBSchemaParser.ReadNames` | core/schema-discovery/schema-discovery-rdbms/src/main/java/com/thinkbiganalytics/schema/DBSchemaParser.java:49-53 | the loop collecting TABLE_SCHEM / TABLE_CAT values computes `ReadAll` |
| `SchemaParser.DBSchemaParser.ListSchemas` | core/schema-discovery/schema-discovery-rdbms/src/main/java/com/thinkbiganalytics/schema/DBSchemaParser.java:45-57 | returns the schemas in source order, or fails with "Unable to list schemas" |
| `SchemaParser.DBSchemaParser.ListCatalogs` | core/schema-discovery/schema-discovery-rdbms/src/main/java/com/thinkbiganalytics/schema/DBSchemaParser.java:59-71 | returns the catalogs in source order, or fails with "Unable to list catalogs" |
| `Discovery.GetTables` | core/schema-discovery/schema-discovery-rdbms/src/main/java/com/thinkbiganalytics/schema/DBSchemaParser.java:83-90 | a `getTables` call that throws yields a null result set; otherwise the result set the call returned |
| `DiscoveryProperties.EntriesAt` | core/schema-discovery/schema-discovery-rdbms/src/main/java/com/thinkbiganalytics/schema/DBSchemaParser.java:92-97 | one entry per row, in row order, each the row's qualified name |
| `DiscoveryProperties.SplitQualifiedName` | core/schema-discovery/schema-discovery-rdbms/src/main/java/com/thinkbiganalytics/schema/DBSchemaParser.java:96 | splitting an entry at its first dot gives back the qualifier (if it has no dot) and the table name |
| `DiscoveryProperties.QualifierIsNullTest` | core/schema-discovery/schema-discovery-rdbms/src/main/java/com/thinkbiganalytics/schema/DBSchemaParser.java:94-96 | the qualifier test is for null, not blank: an empty or blank TABLE_SCHEM still wins over TABLE_CAT; a null catalog prints as "null" |
| `SchemaParser.DBSchemaParser.AddTables` | core/schema-discovery/schema-discovery-rdbms/src/main/java/com/thinkbiganalytics/schema/DBSchemaParser.java:126-130 | appends the entries of every row of a possibly null result set; reports failure exactly when reading it throws |
| `DiscoveryProperties.ScanTablesCollects` | core/schema-discovery/schema-discovery-rdbms/src/main/java/com/thinkbiganalytics/schema/DBSchemaParser.java:124-166 | a sequence of `getTables` calls fails exactly when reading some result set throws; otherwise the entries are the per-query entries concatenated in query order |
| `DiscoveryProperties.ScanStaysAborted` | core/schema-discovery/schema-discovery-rdbms/src/main/java/com/thinkbiganalytics/schema/DBSchemaParser.java:141-142 | once reading one result set throws, the whole listing is aborted |
| `DiscoveryProperties.FailedCallContributesNothing` | core/schema-discovery/schema-discovery-rdbms/src/main/java/com/thinkbiganalytics/schema/DBSchemaParser.java:83-90 | a `getTables` call that throws adds no entries and the listing continues |
| `SchemaParser.DBSchemaParser.CatalogTables` | core/schema-discovery/schema-discovery-rdbms/src/main/java/com/thinkbiganalytics/schema/DBSchemaParser.java:124-131 | issues one query per catalog, in catalog order, and gathers their entries in that order |
| `SchemaParser.DBSchemaParser.SchemaTables` | core/schema-discovery/schema-discovery-rdbms/src/main/java/com/thinkbiganalytics/schema/DBSchemaParser.java:157-163 | issues one null-catalog query per schema, in schema order |
| `SchemaParser.DBSchemaParser.ListTables` | core/schema-discovery/schema-discovery-rdbms/src/main/java/com/thinkbiganalytics/schema/DBSchemaParser.java:110-171 | the listing method computes `Discovery.Tables`, the listing over the chosen queries |
| `DiscoveryProperties.ListTablesWithCatalogs` | core/schema-discovery/schema-discovery-rdbms/src/main/java/com/thinkbiganalytics/schema/DBSchemaParser.java:111-131 | with catalogs: one query per catalog in order; the schema pattern is the schema (or "%" if null) when a filter is non-blank, else "%"; the table pattern is the name or "%" |
| `DiscoveryProperties.ListTablesWithoutCatalogs` | core/schema-discovery/schema-discovery-rdbms/src/main/java/com/thinkbiganalytics/schema/DBSchemaParser.java:132-163 | without catalogs: exactly one null-catalog query when a filter is present, else one null-catalog query per listed schema, or the schema-listing failure |
| `DiscoveryProperties.ListTablesResult` | core/schema-discovery/schema-discovery-rdbms/src/main/java/com/thinkbiganalytics/schema/DBSchemaParser.java:110-171 | the listing fails with "Unable to list catalogs" when the catalogs cannot be listed, with "Unable to list schemas" when the schemas are needed and cannot be listed, and with "Unable to obtain table list" when a result set throws; otherwise it is every partition's entries in query order |
| `DiscoveryProperties.BlankSchemaPatternKept` | core/schema-discovery/schema-discovery-rdbms/src/main/java/com/thinkbiganalytics/schema/DBSchemaParser.java:111-120 | a blank non-null schema with a table filter is passed as the schema pattern unchanged |
| `SchemaParser.DBSchemaParser.AddKeys` | core/schema-discovery/schema-discovery-rdbms/src/main/java/com/thinkbiganalytics/schema/DBSchemaParser.java:215-218 | adds the COLUMN_NAME of every row to the key set |
| `SchemaParser.DBSchemaParser.ListPrimaryKeys` | core/schema-discovery/schema-discovery-rdbms/src/main/java/com/thinkbiganalytics/schema/DBSchemaParser.java:211-233 | the primary-key method computes `Discovery.PrimaryKeys` and never fails |
| `DiscoveryProperties.PrimaryKeysLookup` | core/schema-discovery/schema-discovery-rdbms/src/main/java/com/thinkbiganalytics/schema/DBSchemaParser.java:211-233 | a key is in the result exactly when the schema-keyed lookup read it, or that lookup threw and the catalog-keyed one read it |
| `DiscoveryProperties.PrimaryKeysNoRetry` | core/schema-discovery/schema-discovery-rdbms/src/main/java/com/thinkbiganalytics/schema/DBSchemaParser.java:213-219 | a schema-keyed lookup that does not throw, even an empty one, leaves the catalog-keyed lookup without effect |
| `DiscoveryProperties.PrimaryKeysBothThrow` | core/schema-discovery/schema-discovery-rdbms/src/main/java/com/thinkbiganalytics/schema/DBSchemaParser.java:219-231 | both lookups throwing before any row give the empty set |
| `DiscoveryProperties.FieldsAt` | core/schema-discovery/schema-discovery-rdbms/src/main/java/com/thinkbiganalytics/schema/DBSchemaParser.java:252-267 | one field per column row, in row order |
| `DiscoveryProperties.ResultSetFieldsMapping` | core/schema-discovery/schema-discovery-rdbms/src/main/java/com/thinkbiganalytics/schema/DBSchemaParser.java:249-271 | a null result set gives no fields; each field carries its row's name, types and remarks, is not nullable exactly when IS_NULLABLE is "NO", and is a key exactly when its name is in the key set |
| `DiscoveryProperties.ExactComparisons` | core/schema-discovery/schema-discovery-rdbms/src/main/java/com/thinkbiganalytics/schema/DBSchemaParser.java:260-264 | key membership is case-sensitive and "no" is not "NO" |
| `SchemaParser.DBSchemaParser.ColumnsResultSetToField` | core/schema-discovery/schema-discovery-rdbms/src/main/java/com/thinkbiganalytics/schema/DBSchemaParser.java:249-271 | the setter-by-setter field loop computes `Discovery.ResultSetFields` |
| `SchemaParser.DBSchemaParser.ListColumns` | core/schema-discovery/schema-discovery-rdbms/src/main/java/com/thinkbiganalytics/schema/DBSchemaParser.java:235-247 | the column method computes `Discovery.Columns`: one primary-key set, the schema-keyed lookup, then the catalog-keyed lookup only if no fields |
| `DiscoveryProperties.ColumnsNoRetry` | core/schema-discovery/schema-discovery-rdbms/src/main/java/com/thinkbiganalytics/schema/DBSchemaParser.java:238-240 | when the schema-keyed lookup gives fields or throws, that is the result and the catalog-keyed lookup has no effect |
| `DiscoveryProperties.ColumnsRetry` | core/schema-discovery/schema-discovery-rdbms/src/main/java/com/thinkbiganalytics/schema/DBSchemaParser.java:240-244 | when it gives no fields the result is the catalog-keyed lookup's, with the same key set |
| `Discovery.FirstCatalogIndex` | core/schema-discovery/schema-discovery-rdbms/src/main/java/com/thinkbiganalytics/schema/DBSchemaParser.java:187 | the position of the first catalog equal to the name ignoring case: it matches and no earlier one does |
| `Discovery.FirstMatchIndex` | core/schema-discovery/schema-discovery-rdbms/src/main/java/com/thinkbiganalytics/schema/DBSchemaParser.java:191-195 | the position of the first row passing the name-and-schema test: it passes and no earlier row does |
| `DiscoveryProperties.DescribeRejectsOnlyEmpty` | core/schema-discovery/schema-discovery-rdbms/src/main/java/com/thinkbiganalytics/schema/DBSchemaParser.java:185 | the IllegalArgumentException "Table expected" arises exactly for the empty table name, whatever the source holds |
| `DiscoveryProperties.DescribeCatalogResolution` | core/schema-discovery/schema-discovery-rdbms/src/main/java/com/thinkbiganalytics/schema/DBSchemaParser.java:187-190 | a non-blank schema resolves to the first listed catalog equal to it ignoring case, else to none; a blank one lists no catalogs; the pattern is "%" with a catalog and the schema unchanged without |
| `DiscoveryProperties.DescribeResult` | core/schema-discovery/schema-discovery-rdbms/src/main/java/com/thinkbiganalytics/schema/DBSchemaParser.java:190-208 | a description is the first matching row's name, its non-blank schema or else its catalog, and the columns listed for the requested schema; null exactly when no row matches and reading does not throw; "Unable to describe" when no row matches and reading throws |
| `DiscoveryProperties.DescribeOtherPaths` | core/schema-discovery/schema-discovery-rdbms/src/main/java/com/thinkbiganalytics/schema/DBSchemaParser.java:187-191 | a non-blank schema whose catalogs cannot be listed fails with "Unable to list catalogs", since the catalog lookup runs outside the try; a `getTables` call that returns a null result set without throwing makes the description null |
| `DiscoveryProperties.DescribeQueryThrows` | core/schema-discovery/schema-discovery-rdbms/src/main/java/com/thinkbiganalytics/schema/DBSchemaParser.java:190-191 | a `getTables` call that throws makes the description null, not an error |
| `DiscoveryProperties.SchemaNameBlankTest` | core/schema-discovery/schema-discovery-rdbms/src/main/java/com/thinkbiganalytics/schema/DBSchemaParser.java:195-199 | the schema name uses a blank test and row matching a null test: a blank TABLE_SCHEM is reported as the catalog but must still equal the requested schema |
| `JavaStrings.IsWhitespace` | core/schema-discovery/schema-discovery-rdbms/src/main/java/com/thinkbiganalytics/schema/DBSchemaParser.java:187 | the whitespace test of `isBlank`: space, tab and newline are whitespace; the three non-breaking spaces are not |
| `JavaStrings.IsBlank` | core/schema-discovery/schema-discovery-rdbms/src/main/java/com/thinkbiganalytics/schema/DBSchemaParser.java:120 | null and empty strings are blank; a string whose first character is not whitespace is not |
| `JavaStrings.EqualsIgnoreCase` | core/schema-discovery/schema-discovery-rdbms/src/main/java/com/thinkbiganalytics/schema/DBSchemaParser.java:195 | never equal to null; every string equals itself; equal strings have equal lengths |
| `JavaStrings.Text` | core/schema-discovery/schema-discovery-rdbms/src/main/java/com/thinkbiganalytics/schema/DBSchemaParser.java:96 | the text `+` produces: the string itself, or "null" for a null reference |
| `Discovery.Qualifier` | core/schema-discovery/schema-discovery-rdbms/src/main/java/com/thinkbiganalytics/schema/DBSchemaParser.java:94-96 | the qualifier is TABLE_SCHEM when it is not null, else TABLE_CAT, else "null" |
| `Discovery.QualifiedName` | core/schema-discovery/schema-discovery-rdbms/src/main/java/com/thinkbiganalytics/schema/DBSchemaParser.java:96 | an entry is the qualifier, a dot, then the table name |
| `Discovery.ScanTables` | core/schema-discovery/schema-discovery-rdbms/src/main/java/com/thinkbiganalytics/schema/DBSchemaParser.java:124-166 | a scan that succeeds read no result set that throws |
| `Discovery.TableQueries` | core/schema-discovery/schema-discovery-rdbms/src/main/java/com/thinkbiganalytics/schema/DBSchemaParser.java:110-163 | the `getTables` calls of `listTables`: one per catalog in catalog order when catalogs exist, null-catalog ones otherwise, all with the table pattern; failing only with the catalog or schema listing error |
| `Discovery.Tables` | core/schema-discovery/schema-discovery-rdbms/src/main/java/com/thinkbiganalytics/schema/DBSchemaParser.java:110-171 | the listing fails with "Unable to list catalogs" when catalogs cannot be listed, and only ever with a RuntimeException |
| `Discovery.PrimaryKeys` | core/schema-discovery/schema-discovery-rdbms/src/main/java/com/thinkbiganalytics/schema/DBSchemaParser.java:211-233 | the keys always include those read by the schema-keyed lookup, are exactly those when it does not throw, and come only from the two lookups |
| `Discovery.ToField` | core/schema-discovery/schema-discovery-rdbms/src/main/java/com/thinkbiganalytics/schema/DBSchemaParser.java:253-265 | each field takes its row's name, remarks and mapped types; IS_NULLABLE "NO" clears nullable and otherwise the default stays; a name in the key set sets the key flag and otherwise the default stays |
| `Discovery.FieldsOf` | core/schema-discovery/schema-discovery-rdbms/src/main/java/com/thinkbiganalytics/schema/DBSchemaParser.java:250-267 | one field per row |
| `Discovery.ResultSetFields` | core/schema-discovery/schema-discovery-rdbms/src/main/java/com/thinkbiganalytics/schema/DBSchemaParser.java:249-271 | the mapping fails, with an SQLException, exactly when the result set throws; otherwise it has one field per row, none for a null result set |
| `Discovery.Columns` | core/schema-discovery/schema-discovery-rdbms/src/main/java/com/thinkbiganalytics/schema/DBSchemaParser.java:235-247 | the column listing fails only with an SQLException, and does fail when the schema-keyed `getColumns` call throws |
| `Discovery.ResolvedCatalog` | core/schema-discovery/schema-discovery-rdbms/src/main/java/com/thinkbiganalytics/schema/DBSchemaParser.java:187 | a blank schema resolves to no catalog; resolution fails exactly when the schema is not blank and the catalogs cannot be listed; a resolved catalog is a listed one equal to the schema ignoring case |
| `Discovery.RowMatches` | core/schema-discovery/schema-discovery-rdbms/src/main/java/com/thinkbiganalytics/schema/DBSchemaParser.java:195 | a matching row has the requested table name ignoring case; when the requested schema or TABLE_SCHEM is null, only the name is tested |
| `Discovery.SchemaNameOf` | core/schema-discovery/schema-discovery-rdbms/src/main/java/com/thinkbiganalytics/schema/DBSchemaParser.java:199 | the schema name is TABLE_SCHEM when not blank, else TABLE_CAT |
| `Discovery.Description` | core/schema-discovery/schema-discovery-rdbms/src/main/java/com/thinkbiganalytics/schema/DBSchemaParser.java:184-209 | IllegalArgumentException exactly for the empty table name; a description returned names the requested table ignoring case; every other failure is the catalog listing or the "Unable to describe" error; a non-blank schema whose catalogs cannot be listed gives the catalog listing error |
| `DiscoveryProperties.DescribeFirstMatch` | core/schema-discovery/schema-discovery-rdbms/src/main/java/com/thinkbiganalytics/schema/DBSchemaParser.java:190-201 | the first matching row decides: its description with the requested schema's columns, or the "Unable to describe" error when listing them fails |
| `SchemaParser.DBSchemaParser.DescribeTable` | core/schema-discovery/schema-discovery-rdbms/src/main/java/com/thinkbiganalytics/schema/DBSchemaParser.java:184-209 | the describe method, returning early from its row loop, computes `Discovery.Description` |
| `SchemaParser.DBSchemaParser.constructor` | core/schema-discovery/schema-discovery-rdbms/src/main/java/com/thinkbiganalytics/schema/DBSchemaParser.java:40-43 | the parser keeps the data source it is given |
| `Scenarios.DescribeSalesOrders` | core/schema-discovery/schema-discovery-rdbms/src/main/java/com/thinkbiganalytics/schema/DBSchemaParser.java:184-271 | with no catalogs, SALES.ORDERS is described as ORDERS in SALES with ID (not null, key) and AMOUNT (nullable, not key) |
| `Scenarios.DescribeLowerCaseSchema` | core/schema-discovery/schema-discovery-rdbms/src/main/java/com/thinkbiganalytics/schema/DBSchemaParser.java:187-199 | asking for "sales" matches the vendor's "SALES" ignoring case and reports "SALES" |
| `Scenarios.SalesColumns` | core/schema-discovery/schema-discovery-rdbms/src/main/java/com/thinkbiganalytics/schema/DBSchemaParser.java:235-271 | the columns of ORDERS are ID then AMOUNT with the expected flags |
| `Scenarios.ListSalesTables` | core/schema-discovery/schema-discovery-rdbms/src/main/java/com/thinkbiganalytics/schema/DBSchemaParser.java:156-163 | with no filters and no catalogs, the listing walks the schemas and yields "SALES.ORDERS" |

## Left out

- Connection acquisition: `DataSource.getConnection` and the Kerberos path at line 189. A failure to obtain a connection is not modelled; the model always has a usable metadata source.
- Closing result sets and connections (try-with-resources). Exceptions thrown by `close()` are not modelled.
- Logging at lines 35 and 87. It has no effect on results.
- `ParserHelper.toNativeType` and `ParserHelper.sqlTypeToHiveType` are foreign. They are the arbitrary functions `toNativeType` and `sqlTypeToHiveType` of `Metadata.FieldContext`.
- `DefaultField` and `DefaultTableSchema` are not shown. A field's state before the setters is the parameter `FieldContext.initial`. The iff statements about `nullable` and `primaryKey` assume the usual defaults: nullable, not a key (`UsualDefaults`). `TableSchema` is a datatype with the three properties `describeTable` sets.
- `String.equalsIgnoreCase` folds ASCII letters only. Java's per-character Unicode upper/lower-case comparison is not modelled.
- `StringUtils.isBlank` uses the exact character set of `Character.isWhitespace`. It is applied to Unicode scalar values; Java applies it to UTF-16 code units.
- Null result sets from `getCatalogs`, `getSchemas` and `getPrimaryKeys` are not modelled (JDBC never returns them). Neither is the NullPointerException they would cause, nor a null `table` argument to `describeTable`. TABLE_NAME and COLUMN_NAME are taken to be non-null.
- The table-type filter `{"TABLE", "VIEW"}` of the `getTables` call at line 85 is fixed, so it is not a parameter: `Metadata.Source.tables` stands for `getTables` with that filter applied.
- How the database applies the `%` patterns is the database's (the metadata source's) business: the query functions of `Metadata.Source` are arbitrary.
- The idempotence of `listColumns` holds by construction, since every operation is a function of the source and its arguments. No separate lemma states it.
