/**
 * `DBSessionBuilder.createSession`: picks the session class named by the
 * `engine` tag and hands it a connection string built from the sub-config of
 * that engine, by string interpolation.
 */
module SimpleFactory {
  import opened Wrappers
  import opened Decimal
  import opened ConnString

  /** The literal union `"postgres" | "mysql" | "mongodb"`. */
  type EngineType = s: string | s == "postgres" || s == "mysql" || s == "mongodb" witness "postgres"

  /** `IDBConnectionConfig` (also the Postgres and MySQL configs): password and database are optional. */
  datatype ConnectionConfig = ConnectionConfig(
    host: string, port: int, user: string, password: Option<string>, database: Option<string>)

  /** `IMongodbConnectionConfig`: the common fields plus an optional `authSource`. */
  datatype MongodbConnectionConfig = MongodbConnectionConfig(base: ConnectionConfig, authSource: Option<string>)

  /** `ICreateSessionConfig`: the engine tag and one optional sub-config per engine. */
  datatype CreateSessionConfig = CreateSessionConfig(
    engine: EngineType,
    postgres: Option<ConnectionConfig>,
    mysql: Option<ConnectionConfig>,
    mongodb: Option<MongodbConnectionConfig>)

  datatype SessionClass = PostgresSession | MysqlSession | MongodbSession

  /** A session object: its class and the connection string its constructor received. */
  datatype DBSession = DBSession(sessionClass: SessionClass, connString: string)

  /**
   * The `TypeError` raised when the engine's sub-config is absent: the builder
   * reads `user` of `undefined`.
   */
  datatype FactoryError = MissingConfig(engine: EngineType)

  /** `engineToSessionClass`. */
  const EngineToSessionClass: map<string, SessionClass> :=
    map["postgres" := PostgresSession, "mysql" := MysqlSession, "mongodb" := MongodbSession]

  /** `${field}` for an optional string field: an absent field prints as "undefined". */
  function Interpolate(field: Option<string>): (s: string)
    ensures field.Some? ==> s == field.value
    ensures field.None? ==> s == "undefined"
  {
    match field
    case Some(v) => v
    case None => "undefined"
  }

  /**
   * `buildPostgresConnString`: the connection-string layout under scheme
   * `postgresql`, with the interpolated password and database and no query.
   */
  function PostgresConnString(config: ConnectionConfig): (s: string)
    ensures s == Assemble(UrlFields("postgresql", config.user, Some(Interpolate(config.password)),
      config.host, config.port, Interpolate(config.database), None))
  {
    var u, pw, h, p, d := config.user, Interpolate(config.password), config.host,
      IntToString(config.port), Interpolate(config.database);
    assert "postgresql" + "://" == "postgresql://";
    assert "postgresql://" + (u + ":" + pw) + "@" + (h + ":" + p + "/" + d)
      == "postgresql://" + u + ":" + pw + "@" + h + ":" + p + "/" + d;
    "postgresql://" + u + ":" + pw + "@" + h + ":" + p + "/" + d
  }

  /**
   * `buildMysqlConnString`: the layout under scheme `mysql`, with no password
   * segment and no query.
   */
  function MysqlConnString(config: ConnectionConfig): (s: string)
    ensures s == Assemble(UrlFields("mysql", config.user, None, config.host, config.port,
      Interpolate(config.database), None))
  {
    var u, h, p, d := config.user, config.host, IntToString(config.port), Interpolate(config.database);
    assert "mysql" + "://" == "mysql://";
    assert "mysql://" + u + "@" + (h + ":" + p + "/" + d) == "mysql://" + u + "@" + h + ":" + p + "/" + d;
    "mysql://" + u + "@" + h + ":" + p + "/" + d
  }

  /** `config.authSource || "admin"`: an absent or empty auth source falls back to "admin". */
  function AuthSourceOrDefault(config: MongodbConnectionConfig): (a: string)
    ensures a != ""
    ensures a == "admin" || config.authSource == Some(a)
    ensures config.authSource.Some? && config.authSource.value != "" ==> a == config.authSource.value
  {
    match config.authSource
    case Some(a) => if a == "" then "admin" else a
    case None => "admin"
  }

  /**
   * `buildMongodbConnString`: the layout under scheme `mongodb`, with the
   * interpolated password and database, and the defaulted auth source as query.
   */
  function MongodbConnString(config: MongodbConnectionConfig): (s: string)
    ensures var c := config.base;
      s == Assemble(UrlFields("mongodb", c.user, Some(Interpolate(c.password)), c.host, c.port,
        Interpolate(c.database), Some(AuthSourceOrDefault(config))))
  {
    var c := config.base;
    var u, pw, h, p, d := c.user, Interpolate(c.password), c.host, IntToString(c.port), Interpolate(c.database);
    var a := AuthSourceOrDefault(config);
    var f := UrlFields("mongodb", u, Some(pw), h, c.port, d, Some(a));
    assert "mongodb" + "://" == "mongodb://";
    assert Assemble(f.(authSource := None)) == "mongodb://" + (u + ":" + pw) + "@" + (h + ":" + p + "/" + d);
    assert "mongodb://" + (u + ":" + pw) + "@" + (h + ":" + p + "/" + d)
      == "mongodb://" + u + ":" + pw + "@" + h + ":" + p + "/" + d;
    AssembleWithQuery(f, a);
    "mongodb://" + u + ":" + pw + "@" + h + ":" + p + "/" + d + "?authSource=" + a
  }

  /** The sub-config named by `engine` is present. */
  predicate HasSelectedConfig(config: CreateSessionConfig)
  {
    match config.engine
    case "postgres" => config.postgres.Some?
    case "mysql" => config.mysql.Some?
    case _ => config.mongodb.Some?
  }

  /** `DBSessionBuilder.createSession(config)`. */
  function CreateSession(config: CreateSessionConfig): (r: Result<DBSession, FactoryError>)
    ensures r.Success? <==> HasSelectedConfig(config)
    ensures r.Failure? ==> r.error == MissingConfig(config.engine)
  {
    var sessionClass := EngineToSessionClass[config.engine];
    var connString :-
      if config.engine == "postgres" then
        match config.postgres
        case Some(c) => Success(PostgresConnString(c))
        case None => Failure(MissingConfig(config.engine))
      else if config.engine == "mysql" then
        match config.mysql
        case Some(c) => Success(MysqlConnString(c))
        case None => Failure(MissingConfig(config.engine))
      else if config.engine == "mongodb" then
        match config.mongodb
        case Some(c) => Success(MongodbConnString(c))
        case None => Failure(MissingConfig(config.engine))
      else
        Success("");
    Success(DBSession(sessionClass, connString))
  }
}
