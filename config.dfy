/**
 * Loading the configuration from the process environment: two required
 * variables, two enumerations checked after lower-casing, and defaults for
 * the rest. The environment is a map; an absent variable and an empty one
 * are treated alike, as JavaScript's truthiness test does.
 */
module Configuration {
  import opened Wrappers
  import opened Text
  import opened Types

  const WebhookKey := "DISCORD_WEBHOOK_URL"
  const TargetKey := "TARGET_URL"
  const LogLevelKey := "LOG_LEVEL"
  const NodeEnvKey := "NODE_ENV"
  const IntervalKey := "SCRAPE_INTERVAL_MINUTES"
  const DbPathKey := "DB_PATH"
  const DefaultLogLevel := "info"
  const DefaultNodeEnv := "production"
  const DefaultInterval := "1"
  const DefaultDbPath := "./data/comments.db"

  /** The required variables, in the order they are checked. */
  const RequiredKeys: seq<string> := [WebhookKey, TargetKey]

  datatype ConfigError =
    | MissingVariable(key: string)
    | InvalidLogLevel(value: string)
    | InvalidNodeEnv(value: string)

  /** The message of the error thrown. */
  function ErrorMessage(e: ConfigError): string
  {
    match e
    case MissingVariable(key) => "Missing required environment variable: " + key
    case InvalidLogLevel(v) => "Invalid LOG_LEVEL: " + v
    case InvalidNodeEnv(v) => "Invalid NODE_ENV: " + v
  }

  /** `process.env[key]`, with "" for an unset variable. */
  function Lookup(env: map<string, string>, key: string): string
  {
    if key in env then env[key] else ""
  }

  /** `process.env[key] || fallback`. */
  function OrDefault(env: map<string, string>, key: string, fallback: string): (v: string)
    ensures key in env && env[key] != "" ==> v == env[key]
    ensures !(key in env && env[key] != "") ==> v == fallback
  {
    var raw := Lookup(env, key);
    if raw == "" then fallback else raw
  }

  /** The first key of `keys` whose variable is unset or empty. */
  function FirstMissing(env: map<string, string>, keys: seq<string>): (r: Option<string>)
    ensures r.None? <==> forall i :: 0 <= i < |keys| ==> Lookup(env, keys[i]) != ""
    ensures r.Some? ==> exists i :: 0 <= i < |keys| && keys[i] == r.value && Lookup(env, keys[i]) == "" &&
                                    forall j :: 0 <= j < i ==> Lookup(env, keys[j]) != ""
  {
    if keys == [] then None
    else if Lookup(env, keys[0]) == "" then Some(keys[0])
    else
      var rest := FirstMissing(env, keys[1..]);
      assert forall i :: 1 <= i < |keys| ==> keys[i] == keys[1..][i - 1];
      rest
  }

  function LogLevelName(l: LogLevel): string
  {
    match l
    case Debug => "debug"
    case Info => "info"
    case Warn => "warn"
    case Error => "error"
  }

  function NodeEnvName(n: NodeEnv): string
  {
    match n
    case Development => "development"
    case Production => "production"
  }

  /** The level a (lower-cased) name stands for, if it is one of the four. */
  function ParseLogLevel(s: string): (r: Option<LogLevel>)
    ensures r.Some? ==> LogLevelName(r.value) == s
    ensures r.None? ==> forall l :: LogLevelName(l) != s
  {
    if s == "debug" then Some(Debug)
    else if s == "info" then Some(Info)
    else if s == "warn" then Some(Warn)
    else if s == "error" then Some(Error)
    else None
  }

  /** The environment a (lower-cased) name stands for, if it is one of the two. */
  function ParseNodeEnv(s: string): (r: Option<NodeEnv>)
    ensures r.Some? ==> NodeEnvName(r.value) == s
    ensures r.None? ==> forall n :: NodeEnvName(n) != s
  {
    if s == "development" then Some(Development)
    else if s == "production" then Some(Production)
    else None
  }

  /** The lower-cased LOG_LEVEL, defaulting to "info". */
  function RequestedLogLevel(env: map<string, string>): string
  {
    ToLower(OrDefault(env, LogLevelKey, DefaultLogLevel))
  }

  /** The lower-cased NODE_ENV, defaulting to "production". */
  function RequestedNodeEnv(env: map<string, string>): string
  {
    ToLower(OrDefault(env, NodeEnvKey, DefaultNodeEnv))
  }

  /**
   * `loadConfig`: the required variables are checked in order, then the log level,
   * then the node environment; the first failure is the one reported.
   */
  function LoadConfig(env: map<string, string>): (r: Result<Config, ConfigError>)
    ensures r == Err(MissingVariable(WebhookKey)) <==> Lookup(env, WebhookKey) == ""
    ensures r == Err(MissingVariable(TargetKey)) <==> Lookup(env, WebhookKey) != "" && Lookup(env, TargetKey) == ""
    ensures r.Err? && r.error.InvalidLogLevel? <==>
      Lookup(env, WebhookKey) != "" && Lookup(env, TargetKey) != "" &&
      forall l :: LogLevelName(l) != RequestedLogLevel(env)
    ensures r.Err? && r.error.InvalidLogLevel? ==> r.error.value == RequestedLogLevel(env)
    ensures r.Err? && r.error.InvalidNodeEnv? <==>
      Lookup(env, WebhookKey) != "" && Lookup(env, TargetKey) != "" &&
      (exists l :: LogLevelName(l) == RequestedLogLevel(env)) &&
      forall n :: NodeEnvName(n) != RequestedNodeEnv(env)
    ensures r.Err? && r.error.InvalidNodeEnv? ==> r.error.value == RequestedNodeEnv(env)
    ensures r.Ok? ==>
      r.value.discordWebhookUrl == env[WebhookKey] && r.value.targetUrl == env[TargetKey] &&
      LogLevelName(r.value.logLevel) == RequestedLogLevel(env) &&
      NodeEnvName(r.value.nodeEnv) == RequestedNodeEnv(env) &&
      r.value.scrapeIntervalMinutes == ParseInt(OrDefault(env, IntervalKey, DefaultInterval)) &&
      r.value.dbPath == OrDefault(env, DbPathKey, DefaultDbPath)
  {
    assert RequiredKeys[0] == WebhookKey && RequiredKeys[1] == TargetKey && |RequiredKeys| == 2;
    match FirstMissing(env, RequiredKeys)
    case Some(key) => Err(MissingVariable(key))
    case None =>
      var level := RequestedLogLevel(env);
      match ParseLogLevel(level)
      case None => Err(InvalidLogLevel(level))
      case Some(logLevel) =>
        var nodeEnv := RequestedNodeEnv(env);
        match ParseNodeEnv(nodeEnv)
        case None => Err(InvalidNodeEnv(nodeEnv))
        case Some(n) =>
          Ok(Config(
            env[WebhookKey],
            env[TargetKey],
            ParseInt(OrDefault(env, IntervalKey, DefaultInterval)),
            OrDefault(env, DbPathKey, DefaultDbPath),
            logLevel,
            n))
  }

  /** The environment that spells out a configuration in full. */
  function EnvironmentOf(c: Config, interval: nat): map<string, string>
  {
    map[WebhookKey := c.discordWebhookUrl, TargetKey := c.targetUrl,
        LogLevelKey := LogLevelName(c.logLevel), NodeEnvKey := NodeEnvName(c.nodeEnv),
        IntervalKey := NatToString(interval), DbPathKey := c.dbPath]
  }

  /** Each enumeration name parses back to its value. */
  lemma NamesParseBack(l: LogLevel, n: NodeEnv)
    ensures ParseLogLevel(LogLevelName(l)) == Some(l)
    ensures ParseNodeEnv(NodeEnvName(n)) == Some(n)
  {
  }

  /** The enumeration names are already lower case. */
  lemma LowerNames(l: LogLevel, n: NodeEnv)
    ensures ToLower(LogLevelName(l)) == LogLevelName(l)
    ensures ToLower(NodeEnvName(n)) == NodeEnvName(n)
  {
  }

  /** An environment that passes every check loads to the configuration its variables spell. */
  lemma LoadConfigAccepts(env: map<string, string>)
    requires Lookup(env, WebhookKey) != "" && Lookup(env, TargetKey) != ""
    requires ParseLogLevel(RequestedLogLevel(env)).Some? && ParseNodeEnv(RequestedNodeEnv(env)).Some?
    ensures LoadConfig(env) == Ok(Config(
      env[WebhookKey], env[TargetKey],
      ParseInt(OrDefault(env, IntervalKey, DefaultInterval)),
      OrDefault(env, DbPathKey, DefaultDbPath),
      ParseLogLevel(RequestedLogLevel(env)).value,
      ParseNodeEnv(RequestedNodeEnv(env)).value))
  {
    assert RequiredKeys[0] == WebhookKey && RequiredKeys[1] == TargetKey && |RequiredKeys| == 2;
    assert FirstMissing(env, RequiredKeys) == None;
  }

  /** What the checks read from the environment written from a configuration. */
  lemma EnvironmentReads(c: Config, interval: nat)
    requires c.discordWebhookUrl != "" && c.targetUrl != "" && c.dbPath != ""
    ensures var env := EnvironmentOf(c, interval);
      && Lookup(env, WebhookKey) == env[WebhookKey] == c.discordWebhookUrl
      && Lookup(env, TargetKey) == env[TargetKey] == c.targetUrl
      && RequestedLogLevel(env) == LogLevelName(c.logLevel)
      && RequestedNodeEnv(env) == NodeEnvName(c.nodeEnv)
      && OrDefault(env, IntervalKey, DefaultInterval) == NatToString(interval)
      && OrDefault(env, DbPathKey, DefaultDbPath) == c.dbPath
  {
    LowerNames(c.logLevel, c.nodeEnv);
  }

  /** Loading the environment written from a configuration gives that configuration back. */
  lemma LoadConfigOfEnvironment(c: Config, interval: nat)
    requires c.discordWebhookUrl != "" && c.targetUrl != "" && c.dbPath != ""
    requires c.scrapeIntervalMinutes == Some(interval)
    ensures LoadConfig(EnvironmentOf(c, interval)) == Ok(c)
  {
    var env := EnvironmentOf(c, interval);
    EnvironmentReads(c, interval);
    ParseIntOfNatToString(interval);
    NamesParseBack(c.logLevel, c.nodeEnv);
    LoadConfigAccepts(env);
  }

  /** With nothing but the two required variables set, every default applies. */
  lemma LoadConfigDefaults(webhookUrl: string, targetUrl: string)
    requires webhookUrl != "" && targetUrl != ""
    ensures LoadConfig(map[WebhookKey := webhookUrl, TargetKey := targetUrl]) ==
      Ok(Config(webhookUrl, targetUrl, Some(1), DefaultDbPath, Info, Production))
  {
    var env := map[WebhookKey := webhookUrl, TargetKey := targetUrl];
    assert ToLower(DefaultLogLevel) == DefaultLogLevel;
    assert ToLower(DefaultNodeEnv) == DefaultNodeEnv;
    ParseIntOfNatToString(1);
    assert NatToString(1) == DefaultInterval;
  }
}
