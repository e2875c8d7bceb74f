/**
 * Version 1 of the connector's configuration: the raw, user-facing record, its
 * validation into a `Configuration`, connection-URI selection, and the record
 * that introspection (`configure`) assembles.
 */
module ConfigurationV1 {
  import opened Wrappers
  import opened Metadata
  import opened Connector
  import Decimal

  type u32 = x: int | 0 <= x < 0x1_0000_0000
  type u64 = x: int | 0 <= x < 0x1_0000_0000_0000_0000

  const CURRENT_VERSION: u32 := 1

  /** A value written either alone or as a list of values. */
  datatype SingleOrList<T> = Single(item: T) | List(items: seq<T>) {

    predicate IsEmpty()
      ensures IsEmpty() <==> List? && |items| == 0
      ensures IsEmpty() <==> |ToVec()| == 0
    {
      match this
      case Single(_) => false
      case List(l) => |l| == 0
    }

    /** The values, in order: the single one, or the whole list. */
    function ToVec(): (v: seq<T>)
      ensures Single? ==> v == [item]
      ensures List? ==> v == items
    {
      match this
      case Single(s) => [s]
      case List(l) => l
    }

    /** A borrowing iterator: over a one-element slice, or over the list. */
    function IntoIter(): (it: SliceIter<T>)
      ensures it.pos == 0
      ensures Single? ==> it.slice == [item]
      ensures List? ==> it.slice == items
    {
      match this
      case Single(s) => SliceIter([s], 0)
      case List(l) => SliceIter(l, 0)
    }
  }

  /** A slice iterator: the slice and the position of the next element. */
  datatype SliceIter<T> = SliceIter(slice: seq<T>, pos: nat) {

    /** The next element, if any, and the iterator that follows. */
    function Next(): (r: (Option<T>, SliceIter<T>))
      ensures pos < |slice| ==> r == (Some(slice[pos]), SliceIter(slice, pos + 1))
      ensures pos >= |slice| ==> r.0 == None
    {
      if pos < |slice| then (Some(slice[pos]), SliceIter(slice, pos + 1)) else (None, this)
    }
  }

  /** Everything an iterator yields, in order, by calling `Next` until it returns `None`. */
  function Drain<T>(it: SliceIter<T>): seq<T>
    decreases |it.slice| - it.pos
  {
    var (next, rest) := it.Next();
    match next
    case None => []
    case Some(x) => [x] + Drain(rest)
  }

  lemma {:induction false} DrainYieldsRest<T>(it: SliceIter<T>)
    requires it.pos <= |it.slice|
    ensures Drain(it) == it.slice[it.pos..]
    decreases |it.slice| - it.pos
  {
    if it.pos < |it.slice| {
      DrainYieldsRest(SliceIter(it.slice, it.pos + 1));
    }
  }

  /** Iterating a `SingleOrList` yields exactly `ToVec()`, in the same order. */
  lemma IntoIterYieldsToVec<T>(x: SingleOrList<T>)
    ensures Drain(x.IntoIter()) == x.ToVec()
  {
    DrainYieldsRest(x.IntoIter());
  }

  /**
   * A connection string. The user-facing format also admits a reference to a
   * secret, but by the time a configuration is built the secret is resolved.
   */
  datatype ConnectionUri = ConnectionUri(uri: string)

  datatype ConnectionUris = ConnectionUris(urls: SingleOrList<ConnectionUri>)

  function SingleConnectionUri(connectionUri: string): (r: ConnectionUris)
    ensures r.urls.ToVec() == [ConnectionUri(connectionUri)]
    ensures !r.urls.IsEmpty()
  {
    ConnectionUris(Single(ConnectionUri(connectionUri)))
  }

  /** Settings for the Postgres connection pool; timeouts in seconds. */
  datatype PoolSettings = PoolSettings(
    maxConnections: u32,
    poolTimeout: u64,
    idleTimeout: Option<u64>,
    connectionLifetime: Option<u64>)
  {
    /** Whether these are the default settings, in which case they are not serialized. */
    predicate IsDefault()
      ensures IsDefault() <==>
        maxConnections == 50 && poolTimeout == 30 && idleTimeout == Some(180) && connectionLifetime == Some(600)
    {
      this == DefaultPoolSettings()
    }
  }

  function DefaultPoolSettings(): (p: PoolSettings)
    ensures p.maxConnections == 50 && p.poolTimeout == 30
    ensures p.idleTimeout == Some(180) && p.connectionLifetime == Some(600)
  {
    PoolSettings(50, 30, Some(180), Some(600))
  }

  /**
   * The internal schemas of Postgres, PostGIS, CockroachDB and Citus, which
   * introspection skips unless the configuration says otherwise.
   */
  function DefaultExcludedSchemas(): (r: seq<string>)
    ensures |r| == 6
    ensures "information_schema" in r && "pg_catalog" in r && "tiger" in r
    ensures "crdb_internal" in r && "columnar" in r && "columnar_internal" in r
  {
    ["information_schema", "pg_catalog", "tiger", "crdb_internal", "columnar", "columnar_internal"]
  }

  datatype RawConfiguration = RawConfiguration(
    version: u32,
    connectionUris: ConnectionUris,
    poolSettings: PoolSettings,
    metadata: Metadata,
    aggregateFunctions: AggregateFunctions,
    excludedSchemas: seq<string>)

  /** A configuration that has passed validation. */
  datatype Configuration = Configuration(config: RawConfiguration)

  /** `RawConfiguration::empty()`. */
  function EmptyRawConfiguration(): (c: RawConfiguration)
    ensures c.version == CURRENT_VERSION
    ensures c.connectionUris.urls.ToVec() == []
    ensures c.poolSettings.IsDefault()
    ensures |c.metadata.tables| == 0 && |c.metadata.nativeQueries| == 0 && |c.aggregateFunctions| == 0
    ensures c.excludedSchemas == DefaultExcludedSchemas()
  {
    RawConfiguration(
      CURRENT_VERSION,
      ConnectionUris(List([])),
      DefaultPoolSettings(),
      DefaultMetadata(),
      map[],
      DefaultExcludedSchemas())
  }

  const VERSION_MESSAGE_PREFIX := "invalid configuration version, expected 1, got "

  /**
   * The validation gate. A wrong version is reported alone, before the
   * connection URIs are looked at; then an empty URI list is reported;
   * otherwise the raw configuration is accepted as it is.
   */
  function ValidateRawConfiguration(raw: RawConfiguration): (r: Result<Configuration, ValidateError>)
    ensures r.Success? <==> raw.version == 1 && !raw.connectionUris.urls.IsEmpty()
    ensures r.Success? ==> r.value.config == raw
    ensures r.Failure? ==> |r.error.ranges| == 1
    ensures raw.version != 1 ==> r.Failure? && r.error.ranges[0].path == [Key("version")]
    ensures raw.version == 1 && raw.connectionUris.urls.IsEmpty() ==>
      r.Failure? && r.error.ranges[0].path == [Key("connection_uris")]
  {
    if raw.version != 1 then
      Failure(ValidateError([InvalidRange([Key("version")], VERSION_MESSAGE_PREFIX + Decimal.NatToString(raw.version))]))
    else if raw.connectionUris.urls.IsEmpty() then
      Failure(ValidateError([InvalidRange([Key("connection_uris")], "At least one database url must be specified")]))
    else
      Success(Configuration(raw))
  }

  /** The version error names the version that was found, and nothing else about the configuration matters to it. */
  lemma VersionErrorNamesVersion(raw: RawConfiguration, uris: ConnectionUris)
    requires raw.version != 1
    ensures var r := ValidateRawConfiguration(raw);
      && r.Failure?
      && |r.error.ranges[0].message| > |VERSION_MESSAGE_PREFIX|
      && r.error.ranges[0].message[..|VERSION_MESSAGE_PREFIX|] == VERSION_MESSAGE_PREFIX
      && Decimal.ParseDecimal(r.error.ranges[0].message[|VERSION_MESSAGE_PREFIX|..]) == raw.version
    ensures ValidateRawConfiguration(raw.(connectionUris := uris)) == ValidateRawConfiguration(raw)
  {
    var digits := Decimal.NatToString(raw.version);
    var message := VERSION_MESSAGE_PREFIX + digits;
    assert message[|VERSION_MESSAGE_PREFIX|..] == digits;
    Decimal.ParseNatToString(raw.version);
  }

  /** The empty configuration is rejected, and only for its missing connection URI. */
  lemma EmptyRawConfigurationFailsValidation()
    ensures var r := ValidateRawConfiguration(EmptyRawConfiguration());
      r.Failure? && r.error.ranges == [InvalidRange([Key("connection_uris")], "At least one database url must be specified")]
  {
  }

  /** The first connection URI. Indexing an empty list panics, so the list must not be empty. */
  function SelectFirstConnectionUrl(uris: ConnectionUris): (url: string)
    requires !uris.urls.IsEmpty()
    ensures url == uris.urls.ToVec()[0].uri
    ensures uris.urls.Single? ==> url == uris.urls.item.uri
    ensures uris.urls.List? ==> url == uris.urls.items[0].uri
  {
    uris.urls.ToVec()[0].uri
  }

  /**
   * The connection URI to use. Always the first one: load-balancing across
   * read replicas is not done.
   */
  function SelectConnectionUrl(uris: ConnectionUris): (url: string)
    requires !uris.urls.IsEmpty()
    ensures url == uris.urls.ToVec()[0].uri
  {
    SelectFirstConnectionUrl(uris)
  }

  /** A validated configuration always has a URI to select. */
  lemma ValidatedHasConnectionUrl(raw: RawConfiguration)
    requires ValidateRawConfiguration(raw).Success?
    ensures !ValidateRawConfiguration(raw).value.config.connectionUris.urls.IsEmpty()
    ensures SelectConnectionUrl(ValidateRawConfiguration(raw).value.config.connectionUris) == raw.connectionUris.urls.ToVec()[0].uri
  {
  }

  /** What the introspection query returns once decoded: the tables and the aggregate functions. */
  datatype Introspection = Introspection(tables: TablesInfo, aggregateFunctions: AggregateFunctions)

  /**
   * `configure`: connect to the first URI, run the introspection query with the
   * excluded schemas as its parameter, and build a fresh version-1 raw
   * configuration. The connection, the query and the decoding are the
   * parameter `introspect`, applied to the URL, the query text and the
   * excluded schemas; any failure there is the result.
   */
  function Configure(
    args: RawConfiguration,
    configurationQuery: string,
    introspect: (string, string, seq<string>) -> Result<Introspection, UpdateConfigurationError>
  ): (r: Result<RawConfiguration, UpdateConfigurationError>)
    requires !args.connectionUris.urls.IsEmpty()
    ensures var discovered := introspect(SelectFirstConnectionUrl(args.connectionUris), configurationQuery, args.excludedSchemas);
      && (r.Failure? <==> discovered.Failure?)
      && (r.Failure? ==> r.error == discovered.error)
      && (r.Success? ==>
        && r.value.version == 1
        && r.value.connectionUris == args.connectionUris
        && r.value.poolSettings == args.poolSettings
        && r.value.metadata.nativeQueries == args.metadata.nativeQueries
        && r.value.excludedSchemas == args.excludedSchemas
        && r.value.metadata.tables == discovered.value.tables
        && r.value.aggregateFunctions == discovered.value.aggregateFunctions)
  {
    var url := SelectFirstConnectionUrl(args.connectionUris);
    var discovered :- introspect(url, configurationQuery, args.excludedSchemas);
    Success(RawConfiguration(
      1,
      args.connectionUris,
      args.poolSettings,
      Metadata(discovered.tables, args.metadata.nativeQueries),
      discovered.aggregateFunctions,
      args.excludedSchemas))
  }

  /** What `configure` produces always passes validation unchanged. */
  lemma ConfigureResultValidates(
    args: RawConfiguration,
    configurationQuery: string,
    introspect: (string, string, seq<string>) -> Result<Introspection, UpdateConfigurationError>)
    requires !args.connectionUris.urls.IsEmpty()
    requires Configure(args, configurationQuery, introspect).Success?
    ensures var raw := Configure(args, configurationQuery, introspect).value;
      ValidateRawConfiguration(raw) == Success(Configuration(raw))
  {
  }

  /**
   * Against an unchanged database (the same `introspect`), configuring the
   * output of `configure` again gives the same output.
   */
  lemma ConfigureIdempotent(
    args: RawConfiguration,
    configurationQuery: string,
    introspect: (string, string, seq<string>) -> Result<Introspection, UpdateConfigurationError>)
    requires !args.connectionUris.urls.IsEmpty()
    requires Configure(args, configurationQuery, introspect).Success?
    ensures var once := Configure(args, configurationQuery, introspect).value;
      !once.connectionUris.urls.IsEmpty() &&
      Configure(once, configurationQuery, introspect) == Success(once)
  {
  }
}
