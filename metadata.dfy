/**
 * The connector's metadata (`query_engine_metadata::metadata`): the tables and
 * aggregate functions discovered by introspection, the user's native queries,
 * and the comparison-operator entries of the scalar-type catalog. Only the
 * fields the modelled code reads are kept.
 */
module Metadata {

  /** The name of a database scalar type, such as `int4` or `text`. */
  datatype ScalarType = ScalarType(name: string)

  datatype Nullable = Nullable | NonNullable

  datatype ColumnInfo = ColumnInfo(name: string, scalarType: ScalarType, nullable: Nullable)

  /** The set of columns a uniqueness constraint covers. */
  datatype UniquenessConstraint = UniquenessConstraint(columns: set<string>)

  datatype ForeignRelation = ForeignRelation(foreignTable: string, columnMapping: map<string, string>)

  datatype TableInfo = TableInfo(
    columns: map<string, ColumnInfo>,
    uniquenessConstraints: map<string, UniquenessConstraint>,
    foreignRelations: map<string, ForeignRelation>)

  type TablesInfo = map<string, TableInfo>

  /** A user-declared parameterised read: its result columns and its arguments. */
  datatype NativeQueryInfo = NativeQueryInfo(columns: map<string, ColumnInfo>, arguments: map<string, ColumnInfo>)

  type NativeQueries = map<string, NativeQueryInfo>

  datatype Metadata = Metadata(tables: TablesInfo, nativeQueries: NativeQueries)

  /** `Metadata::default()`: no tables and no native queries. */
  function DefaultMetadata(): (m: Metadata)
    ensures |m.tables| == 0 && |m.nativeQueries| == 0
  {
    Metadata(map[], map[])
  }

  datatype AggregateFunction = AggregateFunction(returnType: ScalarType)

  /** Per scalar type, the aggregate functions that apply to it, by name. */
  type AggregateFunctions = map<ScalarType, map<string, AggregateFunction>>

  /** A catalog entry for a non-equality comparison operator on some scalar type. */
  datatype ComparisonOperator = ComparisonOperator(operatorName: string, argumentType: ScalarType, isInfix: bool)
}
