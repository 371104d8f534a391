// Server configuration (pkg/config/config.go): the defaults, the overrides
// read from the environment, validation and the listen address. The
// environment is a map from variable names to values (an unset variable reads
// as ""), and time.ParseDuration is a parameter.
module Settings {
  import opened Wrappers
  import opened Strconv

  /** A time.Duration: a number of nanoseconds. */
  type Duration = int

  const SECOND: Duration := 1_000_000_000
  const MINUTE: Duration := 60 * SECOND

  datatype ServerConfig = ServerConfig(host: string, port: int, maxConnections: int, requestTimeout: Duration,
                                       shutdownTimeout: Duration, enableTLS: bool, certFile: string, keyFile: string)

  datatype HnswConfig = HnswConfig(m: int, efConstruction: int, defaultEfSearch: int, dimensions: int)

  datatype CacheConfig = CacheConfig(enabled: bool, capacity: int, ttl: Duration)

  datatype DatabaseConfig = DatabaseConfig(dataDir: string, enableWal: bool, syncWrites: bool, maxNamespaces: int)

  datatype Config = Config(server: ServerConfig, hnsw: HnswConfig, cache: CacheConfig, database: DatabaseConfig)

  /** The ranges Validate enforces, stated independently of the order it checks them in. */
  ghost predicate Valid(c: Config)
  {
    1 <= c.server.port <= 65535 && c.server.maxConnections >= 1 &&
    (c.server.enableTLS ==> c.server.certFile != "" && c.server.keyFile != "") &&
    2 <= c.hnsw.m <= 100 && c.hnsw.efConstruction >= 10 && c.hnsw.dimensions >= 1 &&
    (c.cache.enabled ==> c.cache.capacity >= 1) &&
    c.database.dataDir != ""
  }

  /** The defaults: port 50051, M 16, efConstruction 200, efSearch 50, 768 dimensions, a cache of 1000 entries. */
  function Default(): (c: Config)
    ensures c.server.port == 50051 && c.hnsw.m == 16 && c.hnsw.efConstruction == 200
    ensures c.hnsw.defaultEfSearch == 50 && c.hnsw.dimensions == 768 && c.cache.capacity == 1000
  {
    Config(
      ServerConfig("0.0.0.0", 50051, 1000, 30 * SECOND, 10 * SECOND, false, "", ""),
      HnswConfig(16, 200, 50, 768),
      CacheConfig(true, 1000, 5 * MINUTE),
      DatabaseConfig("./data", true, false, 100))
  }

  /** Validate: the checks in source order, each failure with its message; Pass exactly for a valid configuration. */
  function Validate(c: Config): (r: Outcome)
    ensures r == Pass <==> Valid(c)
  {
    if c.server.port < 1 || c.server.port > 65535 then
      Fail("invalid port: " + IntToString(c.server.port) + " (must be 1-65535)")
    else if c.server.maxConnections < 1 then
      Fail("invalid max connections: " + IntToString(c.server.maxConnections) + " (must be > 0)")
    else if c.server.enableTLS && (c.server.certFile == "" || c.server.keyFile == "") then
      Fail("TLS enabled but cert or key file not specified")
    else if c.hnsw.m < 2 || c.hnsw.m > 100 then
      Fail("invalid HNSW M: " + IntToString(c.hnsw.m) + " (recommended: 16)")
    else if c.hnsw.efConstruction < 10 then
      Fail("invalid HNSW efConstruction: " + IntToString(c.hnsw.efConstruction) + " (must be >= 10)")
    else if c.hnsw.dimensions < 1 then
      Fail("invalid dimensions: " + IntToString(c.hnsw.dimensions) + " (must be > 0)")
    else if c.cache.enabled && c.cache.capacity < 1 then
      Fail("invalid cache capacity: " + IntToString(c.cache.capacity) + " (must be > 0)")
    else if c.database.dataDir == "" then
      Fail("data directory not specified")
    else
      Pass
  }

  /** The defaults pass validation. */
  lemma DefaultValid()
    ensures Validate(Default()) == Pass
  {
  }

  /** The port is checked first: a port outside 1..65535 is the error reported, whatever else is wrong. */
  lemma PortFirst(c: Config)
    requires c.server.port < 1 || c.server.port > 65535
    ensures Validate(c) == Fail("invalid port: " + IntToString(c.server.port) + " (must be 1-65535)")
  {
  }

  /** The cache capacity matters only when the cache is enabled. */
  lemma CapacityOnlyWhenEnabled(c: Config, capacity: int)
    requires !c.cache.enabled
    ensures Validate(c) == Validate(c.(cache := c.cache.(capacity := capacity)))
  {
  }

  /** TLS files matter only when TLS is enabled. */
  lemma TlsFilesOnlyWhenEnabled(c: Config, cert: string, key: string)
    requires !c.server.enableTLS
    ensures Validate(c) == Validate(c.(server := c.server.(certFile := cert, keyFile := key)))
  {
  }

  /** os.Getenv: the value of a variable, "" when it is unset. */
  function Getenv(env: map<string, string>, key: string): string
  {
    if key in env then env[key] else ""
  }

  /** A string override: a non-empty value replaces the default. */
  function StringSetting(env: map<string, string>, key: string, default: string): string
  {
    if Getenv(env, key) != "" then Getenv(env, key) else default
  }

  /** An integer override: a value strconv.Atoi accepts replaces the default, anything else keeps it. */
  function IntSetting(env: map<string, string>, key: string, default: int): int
  {
    var v := Getenv(env, key);
    if v != "" && Atoi(v).Ok? then Atoi(v).value else default
  }

  /** A duration override: a value the duration parser accepts replaces the default. */
  function DurationSetting(env: map<string, string>, key: string, parseDuration: string -> Result<Duration>,
                           default: Duration): Duration
  {
    var v := Getenv(env, key);
    if v != "" && parseDuration(v).Ok? then parseDuration(v).value else default
  }

  /** The configuration LoadFromEnv builds, field by field. */
  function FromEnv(env: map<string, string>, parseDuration: string -> Result<Duration>): Config
  {
    var d := Default();
    var tls := Getenv(env, "VECTOR_ENABLE_TLS") == "true";
    Config(
      ServerConfig(
        StringSetting(env, "VECTOR_HOST", d.server.host),
        IntSetting(env, "VECTOR_PORT", d.server.port),
        IntSetting(env, "VECTOR_MAX_CONNECTIONS", d.server.maxConnections),
        DurationSetting(env, "VECTOR_REQUEST_TIMEOUT", parseDuration, d.server.requestTimeout),
        d.server.shutdownTimeout,
        tls || d.server.enableTLS,
        if tls then Getenv(env, "VECTOR_TLS_CERT") else d.server.certFile,
        if tls then Getenv(env, "VECTOR_TLS_KEY") else d.server.keyFile),
      HnswConfig(
        IntSetting(env, "VECTOR_HNSW_M", d.hnsw.m),
        IntSetting(env, "VECTOR_HNSW_EF_CONSTRUCTION", d.hnsw.efConstruction),
        d.hnsw.defaultEfSearch,
        IntSetting(env, "VECTOR_DIMENSIONS", d.hnsw.dimensions)),
      CacheConfig(
        if Getenv(env, "VECTOR_CACHE_ENABLED") == "false" then false else d.cache.enabled,
        IntSetting(env, "VECTOR_CACHE_CAPACITY", d.cache.capacity),
        DurationSetting(env, "VECTOR_CACHE_TTL", parseDuration, d.cache.ttl)),
      DatabaseConfig(
        StringSetting(env, "VECTOR_DATA_DIR", d.database.dataDir),
        if Getenv(env, "VECTOR_ENABLE_WAL") == "false" then false else d.database.enableWal,
        if Getenv(env, "VECTOR_SYNC_WRITES") == "true" then true else d.database.syncWrites,
        d.database.maxNamespaces))
  }

  /** LoadFromEnv: start from the defaults and apply each override in turn. */
  method LoadFromEnv(env: map<string, string>, parseDuration: string -> Result<Duration>) returns (cfg: Config)
    ensures cfg == FromEnv(env, parseDuration)
  {
    cfg := Default();
    var server := cfg.server;
    var host := OverrideString(env, "VECTOR_HOST", server.host);
    var port := OverrideInt(env, "VECTOR_PORT", server.port);
    var maxConn := OverrideInt(env, "VECTOR_MAX_CONNECTIONS", server.maxConnections);
    var timeout := OverrideDuration(env, "VECTOR_REQUEST_TIMEOUT", parseDuration, server.requestTimeout);
    server := server.(host := host, port := port, maxConnections := maxConn, requestTimeout := timeout);
    if Getenv(env, "VECTOR_ENABLE_TLS") == "true" {
      server := server.(enableTLS := true, certFile := Getenv(env, "VECTOR_TLS_CERT"), keyFile := Getenv(env, "VECTOR_TLS_KEY"));
    }
    cfg := cfg.(server := server);

    var hnsw := cfg.hnsw;
    var m := OverrideInt(env, "VECTOR_HNSW_M", hnsw.m);
    var ef := OverrideInt(env, "VECTOR_HNSW_EF_CONSTRUCTION", hnsw.efConstruction);
    var dims := OverrideInt(env, "VECTOR_DIMENSIONS", hnsw.dimensions);
    cfg := cfg.(hnsw := hnsw.(m := m, efConstruction := ef, dimensions := dims));

    var cache := cfg.cache;
    if Getenv(env, "VECTOR_CACHE_ENABLED") == "false" {
      cache := cache.(enabled := false);
    }
    var capacity := OverrideInt(env, "VECTOR_CACHE_CAPACITY", cache.capacity);
    var ttl := OverrideDuration(env, "VECTOR_CACHE_TTL", parseDuration, cache.ttl);
    cfg := cfg.(cache := cache.(capacity := capacity, ttl := ttl));

    var database := cfg.database;
    var dataDir := OverrideString(env, "VECTOR_DATA_DIR", database.dataDir);
    database := database.(dataDir := dataDir);
    if Getenv(env, "VECTOR_ENABLE_WAL") == "false" {
      database := database.(enableWal := false);
    }
    if Getenv(env, "VECTOR_SYNC_WRITES") == "true" {
      database := database.(syncWrites := true);
    }
    cfg := cfg.(database := database);
  }

  /** `if v := os.Getenv(key); v != "" { field = v }` */
  method OverrideString(env: map<string, string>, key: string, current: string) returns (r: string)
    ensures r == StringSetting(env, key, current)
  {
    r := current;
    var v := Getenv(env, key);
    if v != "" {
      r := v;
    }
  }

  /** `if v := os.Getenv(key); v != "" { if n, err := strconv.Atoi(v); err == nil { field = n } }` */
  method OverrideInt(env: map<string, string>, key: string, current: int) returns (r: int)
    ensures r == IntSetting(env, key, current)
  {
    r := current;
    var v := Getenv(env, key);
    if v != "" {
      var n := Atoi(v);
      if n.Ok? {
        r := n.value;
      }
    }
  }

  /** The same with time.ParseDuration. */
  method OverrideDuration(env: map<string, string>, key: string, parseDuration: string -> Result<Duration>,
                          current: Duration) returns (r: Duration)
    ensures r == DurationSetting(env, key, parseDuration, current)
  {
    r := current;
    var v := Getenv(env, key);
    if v != "" {
      var t := parseDuration(v);
      if t.Ok? {
        r := t.value;
      }
    }
  }

  /** With nothing set in the environment the defaults are loaded. */
  lemma EmptyEnvIsDefault(parseDuration: string -> Result<Duration>)
    ensures FromEnv(map[], parseDuration) == Default()
  {
  }

  /** An integer variable that strconv.Atoi rejects keeps its default; one it accepts is the new value. */
  lemma IntOverride(env: map<string, string>, parseDuration: string -> Result<Duration>)
    ensures var c := FromEnv(env, parseDuration);
      (Atoi(Getenv(env, "VECTOR_PORT")).Err? ==> c.server.port == 50051) &&
      (Atoi(Getenv(env, "VECTOR_PORT")).Ok? ==> c.server.port == Atoi(Getenv(env, "VECTOR_PORT")).value) &&
      (Atoi(Getenv(env, "VECTOR_HNSW_M")).Err? ==> c.hnsw.m == 16) &&
      (Atoi(Getenv(env, "VECTOR_HNSW_EF_CONSTRUCTION")).Err? ==> c.hnsw.efConstruction == 200) &&
      (Atoi(Getenv(env, "VECTOR_DIMENSIONS")).Err? ==> c.hnsw.dimensions == 768) &&
      (Atoi(Getenv(env, "VECTOR_CACHE_CAPACITY")).Err? ==> c.cache.capacity == 1000)
  {
    assert Atoi("").Err?;
  }

  /** Settings without an environment variable always keep their defaults, and TLS is on exactly when VECTOR_ENABLE_TLS is "true". */
  lemma FixedSettings(env: map<string, string>, parseDuration: string -> Result<Duration>)
    ensures var c := FromEnv(env, parseDuration);
      c.server.shutdownTimeout == 10 * SECOND && c.hnsw.defaultEfSearch == 50 && c.database.maxNamespaces == 100 &&
      (c.server.enableTLS <==> Getenv(env, "VECTOR_ENABLE_TLS") == "true")
  {
  }

  /** Address: fmt's "%s:%d" of host and port. */
  function Address(s: ServerConfig): string
  {
    s.host + ":" + IntToString(s.port)
  }

  /** The address splits back into the host and the port: the host, then ':', then a decimal Atoi reads as the port. */
  lemma AddressSplits(s: ServerConfig)
    requires INT64_MIN <= s.port <= INT64_MAX
    ensures var a := Address(s);
      |a| > |s.host| && a[..|s.host|] == s.host && a[|s.host|] == ':' && Atoi(a[|s.host| + 1..]) == Ok(s.port)
  {
    var a := Address(s);
    assert a[|s.host| + 1..] == IntToString(s.port);
    AtoiRoundTrip(s.port);
  }
}
