# ndc-postgres connector core, modelled in Dafny

ndc-postgres is a Native Data Connector for PostgreSQL and its look-alikes
(CockroachDB, Citus, YugabyteDB). This project models three of its parts as
pure Dafny functions and proves properties about them:

- **Version-1 configuration** (`configuration.dfy`). This covers the raw
  configuration record and its one-or-many connection URIs. It also covers the
  default pool settings, the default excluded schemas and `RawConfiguration::empty`.
  It covers the validation gate `validate_raw_configuration`, the selection of
  the connection URL, and `configure`. That last operation rebuilds a raw
  configuration from what introspecting the database returns.
- **The `/schema` endpoint** (`schema.dfy`). `get_schema` derives the
  protocol's schema response from a validated configuration:
  - `scalar_types`: one entry per scalar type that occurs in the metadata;
  - `object_types`: one per table, and one per native query;
  - `collections`: the tables, then the native queries.
- **Comparison-operator translation** (`operators.dfy`). `translate_comparison`
  maps a protocol binary comparison operator to a SQL operator and the scalar
  type its right-hand operand must have.

Supporting modules:

- `wrappers.dfy`: `Option` and `Result`.
- `metadata.dfy`: the metadata records the code reads.
- `ndc_models.dfy`: the protocol's schema records.
- `connector.dfy`: the connector error values.
- `sql_ast.dfy`: the SQL operator record.
- `decimal.dfy`: decimal rendering of the version number in the error message.
- `string_order.dfy`: Rust's `String` ordering and the ascending enumeration
  of a set of strings. A `BTreeMap`/`BTreeSet` iterates in that order, so it
  fixes the order of `collections` and of a uniqueness constraint's columns.

External services are parameters:

- The scalar-type catalog, which gives the comparison operators of a type and
  the right-hand type of each operator, is the `Schema.Catalog` record of two
  functions.
- The translation environment's catalog lookup is the function field of
  `Operators.Env`.
- The SQL equality operator `sql::ast::equals()` is the parameter `equals`.
- Connecting to the database, running the introspection query and decoding its
  row form the function parameter `introspect` of `ConfigurationV1.Configure`.

Validation stops at the first defect. `ValidateError` carries a list of
defects (`crates/connectors/ndc-postgres/src/configuration/version1.rs` lines
175 and 188), but `validate_raw_configuration` returns as soon as the version is
wrong, before it looks at the connection URIs. So a wrong version and an empty
URI list are never reported together. `ValidateRawConfiguration` follows the
code and always reports exactly one defect.

## Model

| member | source | states |
|---|---|---|
| ConfigurationV1.SingleOrList.IsEmpty | crates/connectors/ndc-postgres/src/configuration/version1.rs:67-72 | empty exactly for an empty list (a single value is never empty), which is exactly when `ToVec()` has no elements |
| ConfigurationV1.SingleOrList.ToVec | crates/connectors/ndc-postgres/src/configuration/version1.rs:74-79 | a single value becomes a one-element list; a list is returned as it is |
| ConfigurationV1.SingleOrList.IntoIter | crates/connectors/ndc-postgres/src/configuration/version1.rs:82-91 | iteration starts at position 0 over a one-element slice or over the list |
| ConfigurationV1.IntoIterYieldsToVec | crates/connectors/ndc-postgres/src/configuration/version1.rs:82-91 | iterating a `SingleOrList` until `None` yields exactly `to_vec()`, in order |
| ConfigurationV1.SingleConnectionUri | crates/connectors/ndc-postgres/src/configuration/version1.rs:104-106 | wraps one URI as a non-empty list holding exactly that URI |
| Metadata.DefaultMetadata | crates/connectors/ndc-postgres/src/configuration/version1.rs:114 | `Metadata::default()`: no tables and no native queries |
| ConfigurationV1.EmptyRawConfiguration | crates/connectors/ndc-postgres/src/configuration/version1.rs:108-118 | version 1, no connection URIs, default pool settings, no tables, native queries or aggregate functions, default excluded schemas |
| ConfigurationV1.PoolSettings.IsDefault | crates/connectors/ndc-postgres/src/configuration/version1.rs:138-142 | holds iff max connections 50, pool timeout 30, idle timeout Some(180) and connection lifetime Some(600) |
| ConfigurationV1.DefaultPoolSettings | crates/connectors/ndc-postgres/src/configuration/version1.rs:144-154 | the default pool: 50 connections, 30 s timeout, 180 s idle timeout, 600 s lifetime |
| ConfigurationV1.DefaultExcludedSchemas | crates/connectors/ndc-postgres/src/configuration/version1.rs:36-49 | six schemas: information_schema, pg_catalog, tiger, crdb_internal, columnar, columnar_internal |
| ConfigurationV1.ValidateRawConfiguration | crates/connectors/ndc-postgres/src/configuration/version1.rs:170-201 | succeeds iff the version is 1 and the URI list is not empty, and then carries the raw configuration unchanged; a failure holds exactly one defect, at path ["version"] for a wrong version (even when the URIs are also missing) and ["connection_uris"] otherwise |
| ConfigurationV1.VersionErrorNamesVersion | crates/connectors/ndc-postgres/src/configuration/version1.rs:174-184 | the version error's message is the fixed prefix followed by a decimal numeral that parses back to the version found; the URIs do not affect the outcome |
| Decimal.NatToString | crates/connectors/ndc-postgres/src/configuration/version1.rs:178-181 | the `{0}` rendering of the version: at least one decimal digit, with no leading zero unless the number is 0 |
| Decimal.ParseNatToString | crates/connectors/ndc-postgres/src/configuration/version1.rs:178-181 | the decimal rendering of a number parses back to that number |
| ConfigurationV1.EmptyRawConfigurationFailsValidation | crates/connectors/ndc-postgres/src/configuration/version1.rs:186-194 | the empty configuration fails with exactly the connection_uris defect "At least one database url must be specified" |
| ConfigurationV1.SelectFirstConnectionUrl | crates/connectors/ndc-postgres/src/configuration/version1.rs:203-206 | the first URI: the single one, or element 0 of the list |
| ConfigurationV1.SelectConnectionUrl | crates/connectors/ndc-postgres/src/configuration/version1.rs:208-216 | also the first URI; no load balancing |
| ConfigurationV1.ValidatedHasConnectionUrl | crates/connectors/ndc-postgres/src/configuration/version1.rs:214-216 | a validated configuration has a URI to select, and it is the raw configuration's first |
| ConfigurationV1.Configure | crates/connectors/ndc-postgres/src/configuration/version1.rs:218-261 | introspects through the first URI with the query and the excluded schemas; fails iff introspection fails, with its error; on success stamps version 1, keeps URIs, pool settings, native queries and excluded schemas, and takes tables and aggregate functions from introspection |
| ConfigurationV1.ConfigureResultValidates | crates/connectors/ndc-postgres/src/configuration/version1.rs:250-260 | what `configure` returns passes validation unchanged |
| ConfigurationV1.ConfigureIdempotent | crates/connectors/ndc-postgres/src/configuration/version1.rs:250-260 | against the same database, configuring the output of `configure` again returns the same configuration |
| Schema.OccurringScalarTypes | crates/connectors/ndc-postgres/src/schema.rs:16-47 | contains the type of every table column, native-query column and native-query argument, and every type with aggregate functions |
| Schema.OccurringScalarTypesOnly | crates/connectors/ndc-postgres/src/schema.rs:16-47 | contains nothing else: each occurring type comes from one of those four sources |
| Schema.ColumnToType | crates/connectors/ndc-postgres/src/schema.rs:232-243 | a non-nullable column has its named scalar type, a nullable one has that type wrapped as nullable (both directions), and the underlying name is the column's scalar type |
| Schema.AggregateFunctionsOf | crates/connectors/ndc-postgres/src/schema.rs:67-82 | no entry gives no functions; otherwise the same function names, each with its return type's name as result type |
| Schema.ComparisonOperatorsOf | crates/connectors/ndc-postgres/src/schema.rs:83-96 | exactly the catalog's operators for the type, each with the catalog's right-hand type |
| Schema.ScalarTypeInfo | crates/connectors/ndc-postgres/src/schema.rs:66-97 | a scalar type's aggregate functions, its comparison operators, and no update operators |
| Schema.ScalarTypes | crates/connectors/ndc-postgres/src/schema.rs:61-101 | keyed by exactly the names of the occurring types, each entry describing its type |
| Schema.GetSchemaScalarTypes | crates/connectors/ndc-postgres/src/schema.rs:61-101 | in the response, each occurring type's entry has its aggregate functions (none when it has no entry), exactly the catalog's operators with their right-hand types, and no update operators |
| Schema.GetSchemaScalarTypeNames | crates/connectors/ndc-postgres/src/schema.rs:61-65 | a name is a key of `scalar_types` iff it names an occurring scalar type |
| Schema.ObjectFields | crates/connectors/ndc-postgres/src/schema.rs:190-198 | `BTreeMap::from_iter` over columns visited in a given order: keyed by exactly the visited columns' own names |
| Schema.ObjectFieldsFromColumns | crates/connectors/ndc-postgres/src/schema.rs:190-199 | each field is built from a visited column of that name (columns are keyed by `name`, not by their map key) |
| Schema.ObjectFieldsLastWins | crates/connectors/ndc-postgres/src/schema.rs:190-199 | when two columns share a name, the field is built from the one visited last |
| Schema.ObjectFieldsOfWellNamedColumns | crates/connectors/ndc-postgres/src/schema.rs:190-199 | when every column is named as its key, the fields are exactly the columns, one per key |
| Schema.ColumnFields | crates/connectors/ndc-postgres/src/schema.rs:189-199 | the fields of one object type, its columns visited in ascending key order as `columns.values()` yields them; its keys and values are stated by ColumnFieldsFromColumns and ColumnFieldsOfWellNamedColumns |
| Schema.ColumnFieldsFromColumns | crates/connectors/ndc-postgres/src/schema.rs:207-215 | for columns visited in key order: one field per distinct column name, each built from a column of that name |
| Schema.ColumnFieldsOfWellNamedColumns | crates/connectors/ndc-postgres/src/schema.rs:207-215 | for well-named columns in key order, each column becomes the field of its name |
| Schema.ObjectTypeOf | crates/connectors/ndc-postgres/src/schema.rs:187-202 | an object type with no description whose fields are the column fields; GetSchemaObjectTypes states it for the response |
| Schema.ObjectTypes | crates/connectors/ndc-postgres/src/schema.rs:187-221 | keyed by every table and native-query name; a native query replaces a table of the same name; the others are the table's |
| Schema.GetSchemaObjectTypes | crates/connectors/ndc-postgres/src/schema.rs:220-221 | in the response, object types cover tables and native queries, native queries taking precedence, each with its columns' fields |
| Schema.UniqueColumns | crates/connectors/ndc-postgres/src/schema.rs:119-127 | the constraint's columns exactly, listed in strictly ascending order |
| Schema.UniquenessConstraintsOf | crates/connectors/ndc-postgres/src/schema.rs:115-129 | the same constraint names, each listing exactly its constraint's columns |
| Schema.ForeignKeysOf | crates/connectors/ndc-postgres/src/schema.rs:130-151 | the same relation names, each with its target table as foreign collection and its column mapping unchanged |
| Schema.ArgumentsOf | crates/connectors/ndc-postgres/src/schema.rs:162-174 | the same argument names, each typed by its nullability |
| Schema.TableCollection | crates/connectors/ndc-postgres/src/schema.rs:107-152 | a table's collection carries the table's name as its name and its type, and is not deletable |
| Schema.NativeQueryCollection | crates/connectors/ndc-postgres/src/schema.rs:159-181 | a native query's collection carries the query's name as its name and its type, and is not deletable |
| Schema.TableCollectionShape | crates/connectors/ndc-postgres/src/schema.rs:107-152 | a table's collection is named and typed after the table, has no arguments, is read-only, and carries its uniqueness constraints and foreign keys |
| Schema.NativeQueryCollectionShape | crates/connectors/ndc-postgres/src/schema.rs:159-181 | a native query's collection is named and typed after it, has its arguments, is read-only, and has no constraints or foreign keys |
| Schema.InKeyOrderAt | crates/connectors/ndc-postgres/src/schema.rs:103-107 | mapping over a B-tree map yields at position i the image of the i-th key in ascending order |
| Schema.TableCollections | crates/connectors/ndc-postgres/src/schema.rs:103-153 | one collection per table |
| Schema.TableCollectionsAt | crates/connectors/ndc-postgres/src/schema.rs:103-153 | the i-th table collection is the collection of the i-th table name in ascending order |
| Schema.NativeQueryCollections | crates/connectors/ndc-postgres/src/schema.rs:155-182 | one collection per native query |
| Schema.NativeQueryCollectionsAt | crates/connectors/ndc-postgres/src/schema.rs:155-182 | the i-th native-query collection is the collection of the i-th query name in ascending order |
| Schema.Collections | crates/connectors/ndc-postgres/src/schema.rs:184-185 | as many collections as tables and native queries together |
| Schema.CollectionsTablePart | crates/connectors/ndc-postgres/src/schema.rs:184-185 | `collections` begins with the table collections |
| Schema.CollectionsNativeQueryPart | crates/connectors/ndc-postgres/src/schema.rs:184-185 | after the tables, `collections` continues with the native-query collections |
| Schema.TableCollectionAt | crates/connectors/ndc-postgres/src/schema.rs:184-185 | position i below the table count holds the collection of the i-th table in name order |
| Schema.NativeQueryCollectionAt | crates/connectors/ndc-postgres/src/schema.rs:184-185 | position i from the table count on holds the collection of the (i minus table count)-th native query in name order |
| Schema.TablesHaveCollections | crates/connectors/ndc-postgres/src/schema.rs:103-153 | every table has a collection of its name among the first part |
| Schema.NativeQueriesHaveCollections | crates/connectors/ndc-postgres/src/schema.rs:155-185 | every native query has a collection of its name in the second part |
| Schema.CollectionsOrdered | crates/connectors/ndc-postgres/src/schema.rs:184-185 | within each part the collection names strictly ascend, so none repeats within a part |
| Schema.CollectionsReadOnly | crates/connectors/ndc-postgres/src/schema.rs:107-114 | every collection is typed by its own name, is not deletable, and has no insertable or updatable columns |
| Schema.GetSchema | crates/connectors/ndc-postgres/src/schema.rs:53-230 | the response's scalar types, object types and collections are those derived from the configuration's metadata and aggregate functions, and it lists no functions and no procedures; `get_schema` never fails |
| Schema.GetSchemaCollections | crates/connectors/ndc-postgres/src/schema.rs:103-185 | in the response: one collection per table and per native query; every table has its collection in the first part and every native query in the second; names strictly ascend within each part |
| Schema.GetSchemaHasNoFunctionsOrProcedures | crates/connectors/ndc-postgres/src/schema.rs:223-229 | the response has no functions and no procedures |
| Schema.ObjectFieldTypesAreDeclared | crates/connectors/ndc-postgres/src/schema.rs:14-47 | every object field's type names a key of `scalar_types` |
| Schema.ObjectFieldTypeIsDeclared | crates/connectors/ndc-postgres/src/schema.rs:14-47 | the type of one field of one object type names a key of `scalar_types` |
| Schema.ColumnFieldTypeOccurs | crates/connectors/ndc-postgres/src/schema.rs:189-199 | a field built from columns whose types all occur has an occurring type |
| Schema.ArgumentTypesAreDeclared | crates/connectors/ndc-postgres/src/schema.rs:14-47 | every collection argument's type names a key of `scalar_types` |
| Schema.ArgumentTypeIsDeclared | crates/connectors/ndc-postgres/src/schema.rs:14-47 | the type of one argument of one collection names a key of `scalar_types` |
| StringOrder.SortedElements | crates/connectors/ndc-postgres/src/schema.rs:115-126 | the B-tree enumeration of a set of strings: strictly ascending, the same elements, the same count |
| StringOrder.SortedElementsUnique | crates/connectors/ndc-postgres/src/schema.rs:115-126 | any strictly ascending sequence of exactly the set's elements is that enumeration |
| Operators.TranslateComparison | crates/query-engine/translation/src/translation/query/operators.rs:7-27 | `Equal` gives SQL equality with the left type as right-hand type; another operator fails iff the catalog lookup fails, with the lookup's error, and otherwise gives the looked-up operator's name, fixity and argument type |
| Operators.EqualIgnoresCatalog | crates/query-engine/translation/src/translation/query/operators.rs:13 | `Equal` always succeeds and translates the same under every environment |
| Operators.TranslationDependsOnlyOnLookup | crates/query-engine/translation/src/translation/query/operators.rs:15-24 | environments that agree on the one lookup for the left type and the operator name translate a named operator alike |

## Left out

- I/O in `configure`. This covers connecting with sqlx, running the introspection query and decoding its JSON row with serde. The tracing spans and `async` go too. Together they are the `introspect` parameter, whose failures are `UpdateConfigurationError` values.
- ConfigurationV1.SelectFirstConnectionUrl, ConfigurationV1.SelectConnectionUrl and ConfigurationV1.Configure require a non-empty URI list. The source indexes element 0 of `to_vec()` and panics when the list is empty. Nothing in `configure` checks the list first: it takes an unvalidated `RawConfiguration`, and `RawConfiguration::empty()` has an empty list, so configuring that value panics instead of returning an `UpdateConfigurationError`. Its callers must rule the empty list out. The model does not represent the panic; the `requires` excludes that input, and `ConfigurationV1.ValidatedHasConnectionUrl` shows that validation is enough to meet it.
- Serialization and JSON Schema generation. This includes `skip_serializing_if` for default pool settings, the serde default functions (they only restate the defaults) and the secret-reference form of a connection URI, which is resolved before the configuration is built.
- The internals of the scalar-type catalog. `ScalarType::comparison_operators`, `rhs_argument_type` and `Env::lookup_comparison` are function parameters.
- `sql::ast::equals()` is not part of this model. It is the `equals` parameter of `Operators.TranslateComparison`.
- Translation errors are opaque. `Operators.Error` carries only a message, which the translation passes on unchanged.
- Metadata fields the modelled code never reads, such as schema and table names in the database and native-query SQL text. Also left out: the details of `FunctionInfo`/`ProcedureInfo`, since the response always lists none.
- Map order in the response. Dafny maps are unordered, so the B-tree order of `scalar_types`, `object_types` and the other response maps is not modelled. The order of `collections` and of uniqueness-constraint columns is modelled.
- Integer widths. `version` and `max_connections` are `u32` values and the timeouts are `u64` values. They are subset types, and no arithmetic is done on them.
