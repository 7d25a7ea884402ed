/** `validateEnv` of backend/src/config/env.ts: defaults for unset
    variables, the validation checks in order, the development secret and the
    normalisation of the two API prefixes. The process environment is an
    input map; `process.exit(1)` after a failed check is the `Failure` case. */
module Env {
  import opened Wrappers
  import opened JsValues

  const DevSecret := "default-secret-key-for-development-only"

  const NodeEnvMessage := "NODE_ENV must be development, test, or production"
  const PortMessage := "PORT must be a valid port number (0-65535)"
  const MongoMessage := "MONGO_URI is required"
  const SecretMessage := "JWT_SECRET must be at least 32 characters in production"

  /** The validated configuration. */
  datatype Config = Config(
    nodeEnv: string,
    port: int,
    mongoUri: string,
    jwtSecret: string,
    jwtExpire: string,
    apiPrefix: string,
    legacyApiPrefix: string,
    frontendUrl: string)

  /** The variables `validateEnv` reads from `process.env`. */
  datatype Name = NODE_ENV | PORT | MONGO_URI | JWT_SECRET | JWT_EXPIRE | API_PREFIX | LEGACY_API_PREFIX | FRONTEND_URL

  /** `process.env[name]`. */
  function Var(vars: map<Name, string>, name: Name): Option<string> {
    if name in vars then Some(vars[name]) else None
  }

  /** `process.env[name] || fallback`: unset and empty both give the fallback. */
  function OrElse(vars: map<Name, string>, name: Name, fallback: string): (r: string)
    ensures name !in vars ==> r == fallback
    ensures name in vars && vars[name] == "" ==> r == fallback
    ensures name in vars && vars[name] != "" ==> r == vars[name]
  {
    if name in vars && vars[name] != "" then vars[name] else fallback
  }

  predicate IsNodeEnv(s: string) {
    s == "development" || s == "test" || s == "production"
  }

  /** `isNaN(port) || port < 0 || port > 65535` fails. */
  predicate ValidPort(port: Option<int>) {
    port.Some? && 0 <= port.value <= 65535
  }

  /** `!JWT_SECRET || JWT_SECRET.length < 32`. */
  predicate WeakSecret(secret: Option<string>) {
    secret.None? || |secret.value| < 32
  }

  /** A `/` is prepended when the prefix does not start with one. */
  function WithLeadingSlash(prefix: string): (r: string)
    ensures |r| > 0 && r[0] == '/'
    ensures r == prefix || r == "/" + prefix
    ensures r == prefix <==> |prefix| > 0 && prefix[0] == '/'
  {
    if |prefix| > 0 && prefix[0] == '/' then prefix else "/" + prefix
  }

  function NodeEnvOf(vars: map<Name, string>): string { OrElse(vars, NODE_ENV, "development") }
  function PortOf(vars: map<Name, string>): Option<int> { ParseInt10(OrElse(vars, PORT, "5000")) }

  /** The settings as read from the environment, before any check. */
  datatype Settings = Settings(
    nodeEnv: string,
    port: Option<int>,
    mongoUri: Option<string>,
    jwtSecret: Option<string>,
    jwtExpire: string,
    apiPrefix: string,
    legacyApiPrefix: string,
    frontendUrl: string)

  /** The object literal at the top of `validateEnv`: defaults for unset or
      empty variables, `PORT` through `parseInt(.., 10)`. */
  function Read(vars: map<Name, string>): Settings {
    Settings(
      OrElse(vars, NODE_ENV, "development"),
      ParseInt10(OrElse(vars, PORT, "5000")),
      Var(vars, MONGO_URI),
      Var(vars, JWT_SECRET),
      OrElse(vars, JWT_EXPIRE, "7d"),
      OrElse(vars, API_PREFIX, "/api/v1"),
      OrElse(vars, LEGACY_API_PREFIX, "/api"),
      OrElse(vars, FRONTEND_URL, "http://localhost:3000"))
  }

  /** The checks on the settings read, in order, and the final configuration. */
  function Checked(s: Settings): Result<Config, string> {
    if !IsNodeEnv(s.nodeEnv) then Failure(NodeEnvMessage)
    else if !ValidPort(s.port) then Failure(PortMessage)
    else if s.mongoUri.None? || s.mongoUri.value == "" then Failure(MongoMessage)
    else if WeakSecret(s.jwtSecret) && s.nodeEnv == "production" then Failure(SecretMessage)
    else Success(Config(
      s.nodeEnv,
      s.port.value,
      s.mongoUri.value,
      if WeakSecret(s.jwtSecret) then DevSecret else s.jwtSecret.value,
      s.jwtExpire,
      WithLeadingSlash(s.apiPrefix),
      WithLeadingSlash(s.legacyApiPrefix),
      s.frontendUrl))
  }

  /** What `validateEnv` returns, or the message of the check that fails first. */
  function ValidatedEnv(vars: map<Name, string>): Result<Config, string> {
    Checked(Read(vars))
  }

  /** The checks run against the settings object, which is then updated in
      place: the development secret, then the two prefixes. */
  method ValidateEnv(vars: map<Name, string>) returns (r: Result<Config, string>)
    ensures r == ValidatedEnv(vars)
    ensures r.Success? ==> IsNodeEnv(r.value.nodeEnv) && 0 <= r.value.port <= 65535 && r.value.mongoUri != ""
    ensures r.Success? ==> "/" <= r.value.apiPrefix && "/" <= r.value.legacyApiPrefix
  {
    var env := Settings(
      OrElse(vars, NODE_ENV, "development"),
      ParseInt10(OrElse(vars, PORT, "5000")),
      Var(vars, MONGO_URI),
      Var(vars, JWT_SECRET),
      OrElse(vars, JWT_EXPIRE, "7d"),
      OrElse(vars, API_PREFIX, "/api/v1"),
      OrElse(vars, LEGACY_API_PREFIX, "/api"),
      OrElse(vars, FRONTEND_URL, "http://localhost:3000"));

    if !(env.nodeEnv == "development" || env.nodeEnv == "test" || env.nodeEnv == "production") {
      return Failure(NodeEnvMessage);
    }
    if env.port.None? || env.port.value < 0 || env.port.value > 65535 {
      return Failure(PortMessage);
    }
    if env.mongoUri.None? || env.mongoUri.value == "" {
      return Failure(MongoMessage);
    }
    if env.jwtSecret.None? || |env.jwtSecret.value| < 32 {
      if env.nodeEnv == "production" {
        return Failure(SecretMessage);
      } else {
        env := env.(jwtSecret := Some(DevSecret));
      }
    }
    if !(|env.apiPrefix| > 0 && env.apiPrefix[0] == '/') {
      env := env.(apiPrefix := "/" + env.apiPrefix);
    }
    if !(|env.legacyApiPrefix| > 0 && env.legacyApiPrefix[0] == '/') {
      env := env.(legacyApiPrefix := "/" + env.legacyApiPrefix);
    }
    r := Success(Config(env.nodeEnv, env.port.value, env.mongoUri.value, env.jwtSecret.value,
                        env.jwtExpire, env.apiPrefix, env.legacyApiPrefix, env.frontendUrl));
  }

  /** The checks run in order and the first failing one decides the message;
      validation succeeds exactly when none fails. */
  lemma CheckOrder(vars: map<Name, string>)
    ensures var r := ValidatedEnv(vars);
      && (!IsNodeEnv(NodeEnvOf(vars)) ==> r == Failure(NodeEnvMessage))
      && (IsNodeEnv(NodeEnvOf(vars)) && !ValidPort(PortOf(vars)) ==> r == Failure(PortMessage))
      && (IsNodeEnv(NodeEnvOf(vars)) && ValidPort(PortOf(vars)) && OrElse(vars, MONGO_URI, "") == ""
          ==> r == Failure(MongoMessage))
      && (IsNodeEnv(NodeEnvOf(vars)) && ValidPort(PortOf(vars)) && OrElse(vars, MONGO_URI, "") != ""
          && WeakSecret(Var(vars, JWT_SECRET)) && NodeEnvOf(vars) == "production"
          ==> r == Failure(SecretMessage))
      && (r.Success? <==>
            && IsNodeEnv(NodeEnvOf(vars)) && ValidPort(PortOf(vars)) && OrElse(vars, MONGO_URI, "") != ""
            && !(WeakSecret(Var(vars, JWT_SECRET)) && NodeEnvOf(vars) == "production"))
  {
  }

  /** A weak or missing secret is fatal in production and replaced by the
      development secret elsewhere; a strong one is kept. */
  lemma SecretPolicy(vars: map<Name, string>)
    requires ValidatedEnv(vars).Success?
    ensures NodeEnvOf(vars) == "production" ==> !WeakSecret(Var(vars, JWT_SECRET))
    ensures ValidatedEnv(vars).value.jwtSecret ==
      if WeakSecret(Var(vars, JWT_SECRET)) then DevSecret else vars[JWT_SECRET]
    ensures |ValidatedEnv(vars).value.jwtSecret| >= 32
  {
  }

  /** Both prefixes start with `/`, and normalising them again changes nothing. */
  lemma PrefixesNormalised(vars: map<Name, string>)
    requires ValidatedEnv(vars).Success?
    ensures var c := ValidatedEnv(vars).value;
      && c.apiPrefix[0] == '/' && c.legacyApiPrefix[0] == '/'
      && WithLeadingSlash(c.apiPrefix) == c.apiPrefix
      && WithLeadingSlash(c.legacyApiPrefix) == c.legacyApiPrefix
  {
  }

  /** Normalisation is idempotent. */
  lemma WithLeadingSlashIdempotent(prefix: string)
    ensures WithLeadingSlash(WithLeadingSlash(prefix)) == WithLeadingSlash(prefix)
  {
  }

  /** `PORT` set to the decimal rendering of `n` reads back as `n`, and is
      accepted exactly when `n` is in range. */
  lemma PortReadBack(vars: map<Name, string>, n: int)
    requires PORT in vars && vars[PORT] == IntToString(n)
    ensures PortOf(vars) == Some(n)
    ensures ValidPort(PortOf(vars)) <==> 0 <= n <= 65535
  {
    assert IntToString(n) + "" == IntToString(n);
    ParseRendered(n, "");
  }

  /** With only `MONGO_URI` set, every other setting takes its default. */
  lemma Defaults(mongoUri: string)
    requires mongoUri != ""
    ensures ValidatedEnv(map[MONGO_URI := mongoUri]) ==
      Success(Config("development", 5000, mongoUri, DevSecret, "7d", "/api/v1", "/api", "http://localhost:3000"))
  {
    var vars := map[MONGO_URI := mongoUri];
    assert vars.Keys == {MONGO_URI};
    DefaultPort();
    assert Read(vars) == Settings("development", Some(5000), Some(mongoUri), None, "7d", "/api/v1", "/api", "http://localhost:3000");
  }

  /** The default `"5000"` parses to 5000. */
  lemma DefaultPort()
    ensures ParseInt10("5000") == Some(5000)
  {
    assert NatToString(5) == "5";
    assert NatToString(50) == "50";
    assert NatToString(500) == "500";
    assert NatToString(5000) == "5000";
    assert IntToString(5000) + "" == "5000";
    ParseRendered(5000, "");
  }
}
