/**
 * The `/schema` endpoint: the pure derivation of the protocol's schema response
 * from a validated configuration. Every map of the response is ordered by key
 * in the source (B-tree maps), which Dafny's maps capture up to order; the one
 * ordered sequence, `collections`, and the column lists of uniqueness
 * constraints follow B-tree key order, modelled by `StringOrder.SortedElements`.
 */
module Schema {
  import opened Wrappers
  import opened Metadata
  import N = NdcModels
  import C = ConfigurationV1
  import StringOrder

  /**
   * What the scalar-type catalog answers: the names of the comparison operators
   * that apply to a scalar type (`ScalarType::comparison_operators`), and the
   * type an operator's right-hand side must have for a given left-hand type
   * (`rhs_argument_type`).
   */
  datatype Catalog = Catalog(
    comparisonOperators: ScalarType -> seq<string>,
    rhsArgumentType: (string, ScalarType) -> ScalarType)

  function TableColumnTypes(tables: TablesInfo): set<ScalarType> {
    set tn, cn | tn in tables && cn in tables[tn].columns :: tables[tn].columns[cn].scalarType
  }

  function NativeQueryColumnTypes(nativeQueries: NativeQueries): set<ScalarType> {
    set qn, cn | qn in nativeQueries && cn in nativeQueries[qn].columns :: nativeQueries[qn].columns[cn].scalarType
  }

  function NativeQueryArgumentTypes(nativeQueries: NativeQueries): set<ScalarType> {
    set qn, an | qn in nativeQueries && an in nativeQueries[qn].arguments :: nativeQueries[qn].arguments[an].scalarType
  }

  /**
   * Every scalar type the configuration mentions: the types of table columns,
   * of native-query columns and arguments, and every type with aggregate functions.
   */
  function OccurringScalarTypes(config: C.RawConfiguration): (r: set<ScalarType>)
    ensures forall tn, cn | tn in config.metadata.tables && cn in config.metadata.tables[tn].columns ::
      config.metadata.tables[tn].columns[cn].scalarType in r
    ensures forall qn, cn | qn in config.metadata.nativeQueries && cn in config.metadata.nativeQueries[qn].columns ::
      config.metadata.nativeQueries[qn].columns[cn].scalarType in r
    ensures forall qn, an | qn in config.metadata.nativeQueries && an in config.metadata.nativeQueries[qn].arguments ::
      config.metadata.nativeQueries[qn].arguments[an].scalarType in r
    ensures config.aggregateFunctions.Keys <= r
  {
    TableColumnTypes(config.metadata.tables)
      + NativeQueryColumnTypes(config.metadata.nativeQueries)
      + NativeQueryArgumentTypes(config.metadata.nativeQueries)
      + config.aggregateFunctions.Keys
  }

  /** Nothing else occurs: each occurring type is a column type, an argument type, or has aggregate functions. */
  lemma OccurringScalarTypesOnly(config: C.RawConfiguration, t: ScalarType)
    requires t in OccurringScalarTypes(config)
    ensures
      || (exists tn, cn :: tn in config.metadata.tables && cn in config.metadata.tables[tn].columns
            && config.metadata.tables[tn].columns[cn].scalarType == t)
      || (exists qn, cn :: qn in config.metadata.nativeQueries && cn in config.metadata.nativeQueries[qn].columns
            && config.metadata.nativeQueries[qn].columns[cn].scalarType == t)
      || (exists qn, an :: qn in config.metadata.nativeQueries && an in config.metadata.nativeQueries[qn].arguments
            && config.metadata.nativeQueries[qn].arguments[an].scalarType == t)
      || t in config.aggregateFunctions
  {
  }

  /** The name a protocol type refers to, under any nullability wrapper. */
  function UnderlyingName(t: N.Type): string {
    match t
    case Named(n) => n
    case Nullable(u) => UnderlyingName(u)
  }

  /** A column's protocol type: its scalar type, wrapped as nullable exactly when the column is. */
  function ColumnToType(column: ColumnInfo): (t: N.Type)
    ensures column.nullable == NonNullable <==> t == N.Named(column.scalarType.name)
    ensures column.nullable == Nullable <==> t == N.Nullable(N.Named(column.scalarType.name))
    ensures UnderlyingName(t) == column.scalarType.name
  {
    match column.nullable
    case NonNullable => N.Named(column.scalarType.name)
    case Nullable => N.Nullable(N.Named(column.scalarType.name))
  }

  /** The aggregate functions of one scalar type, by name, with their result types; none if it has no entry. */
  function AggregateFunctionsOf(aggregateFunctions: AggregateFunctions, t: ScalarType): (r: map<string, N.AggregateFunctionDefinition>)
    ensures t !in aggregateFunctions ==> r == map[]
    ensures t in aggregateFunctions ==> r.Keys == aggregateFunctions[t].Keys
    ensures forall f | f in r :: r[f].resultType == N.Named(aggregateFunctions[t][f].returnType.name)
  {
    if t in aggregateFunctions then
      map f | f in aggregateFunctions[t] :: N.AggregateFunctionDefinition(N.Named(aggregateFunctions[t][f].returnType.name))
    else
      map[]
  }

  /** One entry per catalog operator of `t`, giving the type its right-hand side must have. */
  function ComparisonOperatorsOf(catalog: Catalog, t: ScalarType): (r: map<string, N.ComparisonOperatorDefinition>)
    ensures forall o :: o in r <==> o in catalog.comparisonOperators(t)
    ensures forall o | o in r :: r[o].argumentType == N.Named(catalog.rhsArgumentType(o, t).name)
  {
    var operators := catalog.comparisonOperators(t);
    map o | o in operators :: N.ComparisonOperatorDefinition(N.Named(catalog.rhsArgumentType(o, t).name))
  }

  /** The protocol's description of one scalar type. Update operators are never offered. */
  function ScalarTypeInfo(config: C.RawConfiguration, catalog: Catalog, t: ScalarType): (r: N.ScalarType)
    ensures r.aggregateFunctions == AggregateFunctionsOf(config.aggregateFunctions, t)
    ensures r.comparisonOperators == ComparisonOperatorsOf(catalog, t)
    ensures r.updateOperators == map[]
  {
    N.ScalarType(AggregateFunctionsOf(config.aggregateFunctions, t), ComparisonOperatorsOf(catalog, t), map[])
  }

  /** `scalar_types`: one entry per occurring scalar type, keyed by its name. */
  function ScalarTypes(config: C.RawConfiguration, catalog: Catalog): (r: map<string, N.ScalarType>)
    ensures r.Keys == set t | t in OccurringScalarTypes(config) :: t.name
    ensures forall t | t in OccurringScalarTypes(config) :: r[t.name] == ScalarTypeInfo(config, catalog, t)
  {
    var occurring := OccurringScalarTypes(config);
    var r := map t | t in occurring :: t.name := ScalarTypeInfo(config, catalog, t);
    forall n
      ensures n in r.Keys <==> n in set t | t in occurring :: t.name
    {
      if n in r.Keys {
        var t :| t in occurring && t.name == n;
      }
    }
    r
  }

  function Field(column: ColumnInfo): N.ObjectField {
    N.ObjectField(None, ColumnToType(column))
  }

  /**
   * The fields of an object type: the columns visited in `order`, each stored
   * under its own `name` (not under its key), so a later column overrides an
   * earlier one of the same name.
   */
  function ObjectFields(columns: map<string, ColumnInfo>, order: seq<string>): (r: map<string, N.ObjectField>)
    requires forall k | k in order :: k in columns
    ensures r.Keys == set k | k in order :: columns[k].name
    decreases |order|
  {
    if order == [] then map[]
    else
      var last := order[|order| - 1];
      assert forall k | k in order[..|order| - 1] :: k in order;
      ObjectFields(columns, order[..|order| - 1])[columns[last].name := Field(columns[last])]
  }

  /** Each field is the field of a visited column of that name. */
  lemma {:induction false} ObjectFieldsFromColumns(columns: map<string, ColumnInfo>, order: seq<string>)
    requires forall k | k in order :: k in columns
    ensures forall n | n in ObjectFields(columns, order) ::
      exists k :: k in order && columns[k].name == n && ObjectFields(columns, order)[n] == Field(columns[k])
    decreases |order|
  {
    if order != [] {
      var last := order[|order| - 1];
      var prefix := order[..|order| - 1];
      assert forall k | k in prefix :: k in order;
      assert order == prefix + [last];
      ObjectFieldsFromColumns(columns, prefix);
    }
  }

  /** The field for a name is the column of that name visited last. */
  lemma {:induction false} ObjectFieldsLastWins(columns: map<string, ColumnInfo>, order: seq<string>, i: nat)
    requires forall k | k in order :: k in columns
    requires i < |order|
    requires forall j | i < j < |order| :: columns[order[j]].name != columns[order[i]].name
    ensures columns[order[i]].name in ObjectFields(columns, order)
    ensures ObjectFields(columns, order)[columns[order[i]].name] == Field(columns[order[i]])
    decreases |order|
  {
    var name := columns[order[i]].name;
    if i < |order| - 1 {
      var last := order[|order| - 1];
      var prefix := order[..|order| - 1];
      assert forall k | k in prefix :: k in order;
      assert prefix[i] == order[i];
      ObjectFieldsLastWins(columns, prefix, i);
      var earlier := ObjectFields(columns, prefix);
      assert ObjectFields(columns, order) == earlier[columns[last].name := Field(columns[last])];
      assert columns[last].name != name;
    }
  }

  /** When every column is named as its key, the fields are exactly the columns. */
  lemma {:induction false} ObjectFieldsOfWellNamedColumns(columns: map<string, ColumnInfo>, order: seq<string>)
    requires forall k | k in order :: k in columns && columns[k].name == k
    ensures ObjectFields(columns, order) == map k | k in order :: Field(columns[k])
    decreases |order|
  {
    if order != [] {
      var prefix := order[..|order| - 1];
      assert forall k | k in prefix :: k in order;
      ObjectFieldsOfWellNamedColumns(columns, prefix);
      assert order == prefix + [order[|order| - 1]];
    }
  }

  /** The fields of a table or native query, its columns visited in key order. */
  function ColumnFields(columns: map<string, ColumnInfo>): map<string, N.ObjectField> {
    ObjectFields(columns, StringOrder.SortedElements(columns.Keys))
  }

  /** A field for every column name, and each field is the field of a column of that name. */
  lemma ColumnFieldsFromColumns(columns: map<string, ColumnInfo>)
    ensures ColumnFields(columns).Keys == set k | k in columns :: columns[k].name
    ensures forall n | n in ColumnFields(columns) ::
      exists k :: k in columns && columns[k].name == n && ColumnFields(columns)[n] == Field(columns[k])
  {
    var order := StringOrder.SortedElements(columns.Keys);
    ObjectFieldsFromColumns(columns, order);
  }

  /** With well-named columns, each column becomes the field of its name. */
  lemma ColumnFieldsOfWellNamedColumns(columns: map<string, ColumnInfo>)
    requires forall k | k in columns :: columns[k].name == k
    ensures ColumnFields(columns) == map k | k in columns :: Field(columns[k])
  {
    var order := StringOrder.SortedElements(columns.Keys);
    ObjectFieldsOfWellNamedColumns(columns, order);
  }

  /** The object type of a table or native query: undescribed, its fields those of its columns. */
  function ObjectTypeOf(columns: map<string, ColumnInfo>): N.ObjectType {
    N.ObjectType(None, ColumnFields(columns))
  }

  /** `object_types`: one per table, then one per native query, a native query replacing a table of the same name. */
  function ObjectTypes(metadata: Metadata): (r: map<string, N.ObjectType>)
    ensures r.Keys == metadata.tables.Keys + metadata.nativeQueries.Keys
    ensures forall n | n in metadata.nativeQueries :: r[n] == ObjectTypeOf(metadata.nativeQueries[n].columns)
    ensures forall n | n in metadata.tables && n !in metadata.nativeQueries :: r[n] == ObjectTypeOf(metadata.tables[n].columns)
  {
    var tableTypes := map n | n in metadata.tables :: ObjectTypeOf(metadata.tables[n].columns);
    var nativeQueryTypes := map n | n in metadata.nativeQueries :: ObjectTypeOf(metadata.nativeQueries[n].columns);
    assert tableTypes.Keys == metadata.tables.Keys;
    assert nativeQueryTypes.Keys == metadata.nativeQueries.Keys;
    tableTypes + nativeQueryTypes
  }

  /** A uniqueness constraint as the protocol lists it: its columns in ascending order. */
  function UniqueColumns(constraint: UniquenessConstraint): (r: N.UniquenessConstraint)
    ensures forall c :: c in r.uniqueColumns <==> c in constraint.columns
    ensures StringOrder.StrictlyIncreasing(r.uniqueColumns)
  {
    N.UniquenessConstraint(StringOrder.SortedElements(constraint.columns))
  }

  /** A table's uniqueness constraints, by name, each with its column set listed in order. */
  function UniquenessConstraintsOf(table: TableInfo): (r: map<string, N.UniquenessConstraint>)
    ensures r.Keys == table.uniquenessConstraints.Keys
    ensures forall k | k in r :: forall col :: col in r[k].uniqueColumns <==> col in table.uniquenessConstraints[k].columns
  {
    map k | k in table.uniquenessConstraints :: UniqueColumns(table.uniquenessConstraints[k])
  }

  /** A table's foreign relations as foreign keys: same names, target tables and column mappings. */
  function ForeignKeysOf(table: TableInfo): (r: map<string, N.ForeignKeyConstraint>)
    ensures r.Keys == table.foreignRelations.Keys
    ensures forall k | k in r ::
      && r[k].foreignCollection == table.foreignRelations[k].foreignTable
      && r[k].columnMapping == table.foreignRelations[k].columnMapping
  {
    map k | k in table.foreignRelations ::
      N.ForeignKeyConstraint(table.foreignRelations[k].columnMapping, table.foreignRelations[k].foreignTable)
  }

  /** A native query's declared arguments, each typed by its nullability. */
  function ArgumentsOf(info: NativeQueryInfo): (r: map<string, N.ArgumentInfo>)
    ensures r.Keys == info.arguments.Keys
    ensures forall a | a in r :: r[a] == N.ArgumentInfo(None, ColumnToType(info.arguments[a]))
  {
    map a | a in info.arguments :: N.ArgumentInfo(None, ColumnToType(info.arguments[a]))
  }

  /** A table as a read-only collection with no arguments, carrying its constraints and foreign keys. */
  function TableCollection(name: string, table: TableInfo): (r: N.CollectionInfo)
    ensures r.name == name && r.collectionType == name && !r.deletable
  {
    N.CollectionInfo(
      name := name,
      description := None,
      arguments := map[],
      collectionType := name,
      insertableColumns := None,
      updatableColumns := None,
      deletable := false,
      uniquenessConstraints := UniquenessConstraintsOf(table),
      foreignKeys := ForeignKeysOf(table))
  }

  /** A native query as a read-only collection whose arguments are its declared ones, with no constraints. */
  function NativeQueryCollection(name: string, info: NativeQueryInfo): (r: N.CollectionInfo)
    ensures r.name == name && r.collectionType == name && !r.deletable
  {
    N.CollectionInfo(
      name := name,
      description := None,
      arguments := ArgumentsOf(info),
      collectionType := name,
      insertableColumns := None,
      updatableColumns := None,
      deletable := false,
      uniquenessConstraints := map[],
      foreignKeys := map[])
  }

  /**
   * A table collection: named after the table, with no arguments, read-only,
   * carrying each uniqueness constraint's column set and each foreign key's
   * target and column mapping as they are.
   */
  lemma TableCollectionShape(name: string, table: TableInfo)
    ensures var c := TableCollection(name, table);
      && c.name == name && c.collectionType == name && c.description == None
      && c.arguments == map[]
      && !c.deletable && c.insertableColumns == None && c.updatableColumns == None
      && c.uniquenessConstraints.Keys == table.uniquenessConstraints.Keys
      && (forall k | k in c.uniquenessConstraints ::
            forall col :: col in c.uniquenessConstraints[k].uniqueColumns <==> col in table.uniquenessConstraints[k].columns)
      && c.foreignKeys.Keys == table.foreignRelations.Keys
      && (forall k | k in c.foreignKeys ::
            && c.foreignKeys[k].foreignCollection == table.foreignRelations[k].foreignTable
            && c.foreignKeys[k].columnMapping == table.foreignRelations[k].columnMapping)
  {
  }

  /**
   * A native-query collection: named after the query, read-only, with its
   * declared arguments typed by nullability and no constraints or foreign keys.
   */
  lemma NativeQueryCollectionShape(name: string, info: NativeQueryInfo)
    ensures var c := NativeQueryCollection(name, info);
      && c.name == name && c.collectionType == name && c.description == None
      && c.arguments.Keys == info.arguments.Keys
      && (forall a | a in c.arguments :: c.arguments[a] == N.ArgumentInfo(None, ColumnToType(info.arguments[a])))
      && !c.deletable && c.insertableColumns == None && c.updatableColumns == None
      && c.uniquenessConstraints == map[] && c.foreignKeys == map[]
  {
  }

  /** The images of a map's entries under `f`, visited in ascending key order, as a B-tree map's iterator yields them. */
  function InKeyOrder<V, R>(m: map<string, V>, f: (string, V) -> R): (r: seq<R>)
    ensures |r| == |m|
    decreases |m|
  {
    if m.Keys == {} then [] else
    var k := StringOrder.Least(m.Keys);
    [f(k, m[k])] + InKeyOrder(m - {k}, f)
  }

  /** The `i`th element of `InKeyOrder(m, f)` is the image of the `i`th key in ascending order. */
  lemma {:induction false} InKeyOrderAt<V, R>(m: map<string, V>, f: (string, V) -> R, i: nat)
    requires i < |m|
    ensures var key := StringOrder.SortedElements(m.Keys)[i];
      key in m && InKeyOrder(m, f)[i] == f(key, m[key])
    decreases |m|
  {
    assert |m.Keys| == |m|;
    var k := StringOrder.Least(m.Keys);
    var rest := m - {k};
    assert rest.Keys == m.Keys - {k};
    StringOrder.SortedElementsStep(m.Keys);
    assert InKeyOrder(m, f) == [f(k, m[k])] + InKeyOrder(rest, f);
    if i > 0 {
      InKeyOrderAt(rest, f, i - 1);
      var key := StringOrder.SortedElements(rest.Keys)[i - 1];
      assert StringOrder.SortedElements(m.Keys)[i] == key;
      assert InKeyOrder(m, f)[i] == InKeyOrder(rest, f)[i - 1];
      assert rest[key] == m[key];
    }
  }

  /** One collection per table, in ascending order of table name. */
  function TableCollections(tables: TablesInfo): (r: seq<N.CollectionInfo>)
    ensures |r| == |tables|
  {
    InKeyOrder(tables, TableCollection)
  }

  /** The `i`th table collection is that of the `i`th table name in ascending order. */
  lemma TableCollectionsAt(tables: TablesInfo, i: nat)
    requires i < |tables|
    ensures var name := StringOrder.SortedElements(tables.Keys)[i];
      && name in tables
      && TableCollections(tables)[i] == TableCollection(name, tables[name])
      && TableCollections(tables)[i].name == name
  {
    InKeyOrderAt(tables, TableCollection, i);
  }

  /** One collection per native query, in ascending order of name. */
  function NativeQueryCollections(nativeQueries: NativeQueries): (r: seq<N.CollectionInfo>)
    ensures |r| == |nativeQueries|
  {
    InKeyOrder(nativeQueries, NativeQueryCollection)
  }

  /** The `i`th native-query collection is that of the `i`th query name in ascending order. */
  lemma NativeQueryCollectionsAt(nativeQueries: NativeQueries, i: nat)
    requires i < |nativeQueries|
    ensures var name := StringOrder.SortedElements(nativeQueries.Keys)[i];
      && name in nativeQueries
      && NativeQueryCollections(nativeQueries)[i] == NativeQueryCollection(name, nativeQueries[name])
      && NativeQueryCollections(nativeQueries)[i].name == name
  {
    InKeyOrderAt(nativeQueries, NativeQueryCollection, i);
  }

  /** `collections`: the table collections followed by the native-query collections. */
  function Collections(metadata: Metadata): (r: seq<N.CollectionInfo>)
    ensures |r| == |metadata.tables| + |metadata.nativeQueries|
  {
    TableCollections(metadata.tables) + NativeQueryCollections(metadata.nativeQueries)
  }

  /** The connector's schema. It cannot fail: the source's `Result` is always `Ok`. */
  function GetSchema(configuration: C.Configuration, catalog: Catalog): (r: N.SchemaResponse)
    ensures r.scalarTypes == ScalarTypes(configuration.config, catalog)
    ensures r.objectTypes == ObjectTypes(configuration.config.metadata)
    ensures r.collections == Collections(configuration.config.metadata)
    ensures r.functions == [] && r.procedures == []
  {
    var config := configuration.config;
    N.SchemaResponse(
      scalarTypes := ScalarTypes(config, catalog),
      objectTypes := ObjectTypes(config.metadata),
      collections := Collections(config.metadata),
      functions := [],
      procedures := [])
  }

  /**
   * `scalar_types` has exactly one entry per occurring scalar type. Its
   * aggregate map is the type's aggregate functions (empty when it has none),
   * its comparison map has one entry per catalog operator with the right-hand
   * type the catalog gives, and it has no update operators.
   */
  lemma GetSchemaScalarTypes(configuration: C.Configuration, catalog: Catalog, t: ScalarType)
    requires t in OccurringScalarTypes(configuration.config)
    ensures var config := configuration.config;
      var entry := GetSchema(configuration, catalog).scalarTypes[t.name];
      && (t !in config.aggregateFunctions ==> entry.aggregateFunctions == map[])
      && (t in config.aggregateFunctions ==> entry.aggregateFunctions.Keys == config.aggregateFunctions[t].Keys)
      && (forall f | f in entry.aggregateFunctions ::
            entry.aggregateFunctions[f].resultType == N.Named(config.aggregateFunctions[t][f].returnType.name))
      && (forall o :: o in entry.comparisonOperators <==> o in catalog.comparisonOperators(t))
      && (forall o | o in entry.comparisonOperators ::
            entry.comparisonOperators[o].argumentType == N.Named(catalog.rhsArgumentType(o, t).name))
      && entry.updateOperators == map[]
  {
  }

  /** The keys of `scalar_types` are the names of the occurring scalar types and nothing else. */
  lemma GetSchemaScalarTypeNames(configuration: C.Configuration, catalog: Catalog)
    ensures forall n :: n in GetSchema(configuration, catalog).scalarTypes <==>
      exists t :: t in OccurringScalarTypes(configuration.config) && t.name == n
  {
    var keys := GetSchema(configuration, catalog).scalarTypes.Keys;
    forall n | n in keys
      ensures exists t :: t in OccurringScalarTypes(configuration.config) && t.name == n
    {
      assert n in set t | t in OccurringScalarTypes(configuration.config) :: t.name;
    }
  }

  /** An element of a concatenation comes from the first part or, past its end, the second. */
  lemma ConcatIndex<T>(a: seq<T>, b: seq<T>, i: nat)
    requires i < |a| + |b|
    ensures (a + b)[i] == if i < |a| then a[i] else b[i - |a|]
  {
  }

  /** `collections` begins with the table part. */
  lemma CollectionsTablePart(metadata: Metadata, i: nat)
    requires i < |metadata.tables|
    ensures Collections(metadata)[i] == TableCollections(metadata.tables)[i]
  {
    ConcatIndex(TableCollections(metadata.tables), NativeQueryCollections(metadata.nativeQueries), i);
  }

  /** `collections` continues with the native-query part. */
  lemma CollectionsNativeQueryPart(metadata: Metadata, i: nat)
    requires |metadata.tables| <= i < |metadata.tables| + |metadata.nativeQueries|
    ensures Collections(metadata)[i] == NativeQueryCollections(metadata.nativeQueries)[i - |metadata.tables|]
  {
    ConcatIndex(TableCollections(metadata.tables), NativeQueryCollections(metadata.nativeQueries), i);
  }

  /** The first part of `collections`: the tables, in ascending order of table name. */
  lemma TableCollectionAt(metadata: Metadata, i: nat)
    requires i < |metadata.tables|
    ensures var name := StringOrder.SortedElements(metadata.tables.Keys)[i];
      && name in metadata.tables
      && Collections(metadata)[i] == TableCollection(name, metadata.tables[name])
      && Collections(metadata)[i].name == name
  {
    CollectionsTablePart(metadata, i);
    TableCollectionsAt(metadata.tables, i);
  }

  /** The second part of `collections`: the native queries, in ascending order of name. */
  lemma NativeQueryCollectionAt(metadata: Metadata, i: nat)
    requires |metadata.tables| <= i < |Collections(metadata)|
    ensures var name := StringOrder.SortedElements(metadata.nativeQueries.Keys)[i - |metadata.tables|];
      && name in metadata.nativeQueries
      && Collections(metadata)[i] == NativeQueryCollection(name, metadata.nativeQueries[name])
      && Collections(metadata)[i].name == name
  {
    CollectionsNativeQueryPart(metadata, i);
    NativeQueryCollectionsAt(metadata.nativeQueries, i - |metadata.tables|);
  }

  /** Every table has a collection in the first part of `collections`. */
  lemma TablesHaveCollections(metadata: Metadata, n: string)
    requires n in metadata.tables
    ensures exists i :: 0 <= i < |metadata.tables| && Collections(metadata)[i].name == n
  {
    var names := StringOrder.SortedElements(metadata.tables.Keys);
    assert n in names;
    var i :| 0 <= i < |names| && names[i] == n;
    TableCollectionAt(metadata, i);
  }

  /** Every native query has a collection in the second part of `collections`. */
  lemma NativeQueriesHaveCollections(metadata: Metadata, n: string)
    requires n in metadata.nativeQueries
    ensures exists i :: |metadata.tables| <= i < |Collections(metadata)| && Collections(metadata)[i].name == n
  {
    var names := StringOrder.SortedElements(metadata.nativeQueries.Keys);
    assert n in names;
    var i :| 0 <= i < |names| && names[i] == n;
    NativeQueryCollectionAt(metadata, |metadata.tables| + i);
  }

  /** Within each part, collections are in strictly ascending order of name (so no name repeats). */
  lemma CollectionsOrdered(metadata: Metadata)
    ensures var tables := metadata.tables;
      var collections := Collections(metadata);
      && (forall i, j | 0 <= i < j < |tables| && j < |collections| ::
            StringOrder.Less(collections[i].name, collections[j].name))
      && (forall i, j | |tables| <= i < j < |collections| ::
            StringOrder.Less(collections[i].name, collections[j].name))
  {
    var tables := metadata.tables;
    var collections := Collections(metadata);
    forall i, j | 0 <= i < j < |tables| && j < |collections|
      ensures StringOrder.Less(collections[i].name, collections[j].name)
    {
      TableCollectionAt(metadata, i);
      TableCollectionAt(metadata, j);
    }
    forall i, j | |tables| <= i < j < |collections|
      ensures StringOrder.Less(collections[i].name, collections[j].name)
    {
      NativeQueryCollectionAt(metadata, i);
      NativeQueryCollectionAt(metadata, j);
    }
  }

  /** Every collection is read-only and is typed by the object type of its own name. */
  lemma CollectionsReadOnly(metadata: Metadata)
    ensures var collections := Collections(metadata);
      forall i | 0 <= i < |collections| ::
        && collections[i].collectionType == collections[i].name
        && !collections[i].deletable
        && collections[i].insertableColumns == None
        && collections[i].updatableColumns == None
  {
    var collections := Collections(metadata);
    forall i | 0 <= i < |collections|
      ensures collections[i].collectionType == collections[i].name && !collections[i].deletable
      ensures collections[i].insertableColumns == None && collections[i].updatableColumns == None
    {
      if i < |metadata.tables| {
        TableCollectionAt(metadata, i);
      } else {
        NativeQueryCollectionAt(metadata, i);
      }
    }
  }

  /**
   * The response's `collections`: one per table, then one per native query;
   * every table and every native query has its collection in its part, and
   * within each part the names strictly ascend.
   */
  lemma GetSchemaCollections(configuration: C.Configuration, catalog: Catalog)
    ensures var metadata := configuration.config.metadata;
      var collections := GetSchema(configuration, catalog).collections;
      && |collections| == |metadata.tables| + |metadata.nativeQueries|
      && (forall n | n in metadata.tables ::
            exists i :: 0 <= i < |metadata.tables| && collections[i].name == n)
      && (forall n | n in metadata.nativeQueries ::
            exists i :: |metadata.tables| <= i < |collections| && collections[i].name == n)
      && (forall i, j | 0 <= i < j < |metadata.tables| && j < |collections| ::
            StringOrder.Less(collections[i].name, collections[j].name))
      && (forall i, j | |metadata.tables| <= i < j < |collections| ::
            StringOrder.Less(collections[i].name, collections[j].name))
  {
    var metadata := configuration.config.metadata;
    forall n | n in metadata.tables
      ensures exists i :: 0 <= i < |metadata.tables| && Collections(metadata)[i].name == n
    {
      TablesHaveCollections(metadata, n);
    }
    forall n | n in metadata.nativeQueries
      ensures exists i :: |metadata.tables| <= i < |Collections(metadata)| && Collections(metadata)[i].name == n
    {
      NativeQueriesHaveCollections(metadata, n);
    }
    CollectionsOrdered(metadata);
  }

  /**
   * `object_types` has one entry per table and per native query, a native
   * query replacing a table of the same name; each field is a column's type
   * keyed by the column's name.
   */
  lemma GetSchemaObjectTypes(configuration: C.Configuration, catalog: Catalog)
    ensures var metadata := configuration.config.metadata;
      var objectTypes := GetSchema(configuration, catalog).objectTypes;
      && objectTypes.Keys == metadata.tables.Keys + metadata.nativeQueries.Keys
      && (forall n | n in metadata.nativeQueries ::
            objectTypes[n].fields == ColumnFields(metadata.nativeQueries[n].columns))
      && (forall n | n in metadata.tables && n !in metadata.nativeQueries ::
            objectTypes[n].fields == ColumnFields(metadata.tables[n].columns))
  {
  }

  /** The connector advertises no functions and no procedures. */
  lemma GetSchemaHasNoFunctionsOrProcedures(configuration: C.Configuration, catalog: Catalog)
    ensures GetSchema(configuration, catalog).functions == []
    ensures GetSchema(configuration, catalog).procedures == []
  {
  }

  /** Every object field has a type whose name is a key of `scalar_types`. */
  lemma ObjectFieldTypesAreDeclared(configuration: C.Configuration, catalog: Catalog)
    ensures var schema := GetSchema(configuration, catalog);
      forall n, f | n in schema.objectTypes && f in schema.objectTypes[n].fields ::
        UnderlyingName(schema.objectTypes[n].fields[f].fieldType) in schema.scalarTypes
  {
    var schema := GetSchema(configuration, catalog);
    forall n, f | n in schema.objectTypes && f in schema.objectTypes[n].fields
      ensures UnderlyingName(schema.objectTypes[n].fields[f].fieldType) in schema.scalarTypes
    {
      ObjectFieldTypeIsDeclared(configuration.config, catalog, n, f);
    }
  }

  /** One field of one object type has a type named in `scalar_types`. */
  lemma ObjectFieldTypeIsDeclared(config: C.RawConfiguration, catalog: Catalog, n: string, f: string)
    requires n in ObjectTypes(config.metadata) && f in ObjectTypes(config.metadata)[n].fields
    ensures UnderlyingName(ObjectTypes(config.metadata)[n].fields[f].fieldType) in ScalarTypes(config, catalog)
  {
    var metadata := config.metadata;
    var occurring := OccurringScalarTypes(config);
    var columns := if n in metadata.nativeQueries then metadata.nativeQueries[n].columns else metadata.tables[n].columns;
    assert ObjectTypes(metadata)[n].fields == ColumnFields(columns);
    ColumnFieldTypeOccurs(columns, occurring, f);
    var t :| t in occurring && t.name == UnderlyingName(ColumnFields(columns)[f].fieldType);
    assert t.name in set t | t in occurring :: t.name;
  }

  /** A field built from columns whose types all occur has an occurring type. */
  lemma ColumnFieldTypeOccurs(columns: map<string, ColumnInfo>, occurring: set<ScalarType>, f: string)
    requires forall k | k in columns :: columns[k].scalarType in occurring
    requires f in ColumnFields(columns)
    ensures exists t :: t in occurring && t.name == UnderlyingName(ColumnFields(columns)[f].fieldType)
  {
    ColumnFieldsFromColumns(columns);
    var k :| k in columns && columns[k].name == f && ColumnFields(columns)[f] == Field(columns[k]);
    assert UnderlyingName(ColumnFields(columns)[f].fieldType) == columns[k].scalarType.name;
  }

  /** Every collection argument has a type whose name is a key of `scalar_types`. */
  lemma ArgumentTypesAreDeclared(configuration: C.Configuration, catalog: Catalog)
    ensures var schema := GetSchema(configuration, catalog);
      forall i, a | 0 <= i < |schema.collections| && a in schema.collections[i].arguments ::
        UnderlyingName(schema.collections[i].arguments[a].argumentType) in schema.scalarTypes
  {
    var schema := GetSchema(configuration, catalog);
    forall i, a | 0 <= i < |schema.collections| && a in schema.collections[i].arguments
      ensures UnderlyingName(schema.collections[i].arguments[a].argumentType) in schema.scalarTypes
    {
      ArgumentTypeIsDeclared(configuration.config, catalog, i, a);
    }
  }

  /** One argument of one collection has a type named in `scalar_types`. */
  lemma ArgumentTypeIsDeclared(config: C.RawConfiguration, catalog: Catalog, i: nat, a: string)
    requires i < |Collections(config.metadata)| && a in Collections(config.metadata)[i].arguments
    ensures UnderlyingName(Collections(config.metadata)[i].arguments[a].argumentType) in ScalarTypes(config, catalog)
  {
    var metadata := config.metadata;
    if i < |metadata.tables| {
      TableCollectionAt(metadata, i);
      assert false;
    } else {
      NativeQueryCollectionAt(metadata, i);
      var info := metadata.nativeQueries[Collections(metadata)[i].name];
      var t := info.arguments[a].scalarType;
      assert t in OccurringScalarTypes(config);
      assert t.name in set t | t in OccurringScalarTypes(config) :: t.name;
    }
  }
}
