/**
 * The part of the Hasura Native Data Connector protocol's data model that the
 * schema response and comparison expressions use (`ndc_sdk::models`).
 */
module NdcModels {
  import opened Wrappers

  /** A type in the protocol: a named scalar or object type, or a nullable one. */
  datatype Type = Named(name: string) | Nullable(underlyingType: Type)

  datatype AggregateFunctionDefinition = AggregateFunctionDefinition(resultType: Type)

  datatype ComparisonOperatorDefinition = ComparisonOperatorDefinition(argumentType: Type)

  datatype UpdateOperatorDefinition = UpdateOperatorDefinition(argumentType: Type)

  datatype ScalarType = ScalarType(
    aggregateFunctions: map<string, AggregateFunctionDefinition>,
    comparisonOperators: map<string, ComparisonOperatorDefinition>,
    updateOperators: map<string, UpdateOperatorDefinition>)

  datatype ArgumentInfo = ArgumentInfo(description: Option<string>, argumentType: Type)

  datatype UniquenessConstraint = UniquenessConstraint(uniqueColumns: seq<string>)

  datatype ForeignKeyConstraint = ForeignKeyConstraint(columnMapping: map<string, string>, foreignCollection: string)

  datatype CollectionInfo = CollectionInfo(
    name: string,
    description: Option<string>,
    arguments: map<string, ArgumentInfo>,
    collectionType: string,
    insertableColumns: Option<seq<string>>,
    updatableColumns: Option<seq<string>>,
    deletable: bool,
    uniquenessConstraints: map<string, UniquenessConstraint>,
    foreignKeys: map<string, ForeignKeyConstraint>)

  datatype ObjectField = ObjectField(description: Option<string>, fieldType: Type)

  datatype ObjectType = ObjectType(description: Option<string>, fields: map<string, ObjectField>)

  /** Functions and procedures are never advertised by this connector; only their names are kept. */
  datatype FunctionInfo = FunctionInfo(name: string)

  datatype ProcedureInfo = ProcedureInfo(name: string)

  datatype SchemaResponse = SchemaResponse(
    scalarTypes: map<string, ScalarType>,
    objectTypes: map<string, ObjectType>,
    collections: seq<CollectionInfo>,
    functions: seq<FunctionInfo>,
    procedures: seq<ProcedureInfo>)

  /** A binary comparison operator in a query predicate. */
  datatype BinaryComparisonOperator = Equal | Other(name: string)
}
