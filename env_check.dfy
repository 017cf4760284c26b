/**
 * Start-up validation of the required environment variables (lib/env-check.ts).
 * The process environment is passed in as a map from variable name to value;
 * a name absent from the map is an unset variable.
 */
module EnvCheck {
  import opened Strings

  /** One required variable, with the help text shown when it is missing. */
  datatype EnvVar = EnvVar(name: string, description: string, example: string, required: bool)

  type Env = map<string, string>

  const DeepSeekKey: string := "DEEPSEEK_API_KEY"
  const AuthSecret: string := "AUTH_SECRET"
  const PostgresUrl: string := "POSTGRES_URL"

  /** The three variables the application needs, in the order they are reported. */
  const RequiredVars: seq<EnvVar> := [
    EnvVar(DeepSeekKey, "Your DeepSeek API key for generating responses", "sk-...", true),
    EnvVar(AuthSecret, "Secret key for NextAuth.js authentication", "your-secret-key-here", true),
    EnvVar(PostgresUrl, "PostgreSQL database connection string", "postgres://...", true)
  ]

  /** `!value || value.trim() === ''`: unset, empty, or whitespace only. */
  predicate IsMissing(env: Env, name: string) {
    name !in env || env[name] == "" || Trim(env[name]) == ""
  }

  /** A JavaScript truthy value: set and not the empty string. */
  predicate IsTruthy(env: Env, name: string) {
    name in env && env[name] != ""
  }

  /** `a` is `b` with some entries dropped, the rest kept in order. */
  predicate IsSubsequence(a: seq<EnvVar>, b: seq<EnvVar>)
    decreases |b|
  {
    if a == [] then true
    else if b == [] then false
    else if a[0] == b[0] then IsSubsequence(a[1..], b[1..])
    else IsSubsequence(a, b[1..])
  }

  /** `vars.filter(v => missing)`. */
  function MissingFrom(vars: seq<EnvVar>, env: Env): (r: seq<EnvVar>)
    ensures |r| <= |vars|
    ensures IsSubsequence(r, vars)
    ensures forall v :: v in r <==> v in vars && IsMissing(env, v.name)
  {
    if vars == [] then []
    else
      var rest := MissingFrom(vars[1..], env);
      assert forall v :: v in vars <==> v == vars[0] || v in vars[1..];
      if IsMissing(env, vars[0].name) then [vars[0]] + rest else rest
  }

  /** `checkRequiredEnvVars()`: the required entries whose value is missing, in declared order. */
  function CheckRequiredEnvVars(env: Env): (r: seq<EnvVar>)
    ensures |r| <= 3
    ensures IsSubsequence(r, RequiredVars)
  {
    MissingFrom(RequiredVars, env)
  }

  /** `hasAllRequiredEnvVars()`. */
  predicate HasAllRequiredEnvVars(env: Env) {
    |CheckRequiredEnvVars(env)| == 0
  }

  /** The module-level `hasEnvVars` flag: all three values truthy. */
  predicate HasEnvVars(env: Env) {
    IsTruthy(env, DeepSeekKey) && IsTruthy(env, AuthSecret) && IsTruthy(env, PostgresUrl)
  }

  /** A variable is reported exactly when it is one of the three and its value is missing. */
  lemma CheckedExactly(env: Env, v: EnvVar)
    ensures v in CheckRequiredEnvVars(env) <==> v in RequiredVars && IsMissing(env, v.name)
  {
  }

  /** Nothing is reported iff every one of the three names holds a value with a non-blank character. */
  lemma HasAllIffPresent(env: Env)
    ensures HasAllRequiredEnvVars(env) <==>
      !IsMissing(env, DeepSeekKey) && !IsMissing(env, AuthSecret) && !IsMissing(env, PostgresUrl)
  {
    var r := CheckRequiredEnvVars(env);
    assert RequiredVars[0].name == DeepSeekKey && RequiredVars[0] in RequiredVars;
    assert RequiredVars[1].name == AuthSecret && RequiredVars[1] in RequiredVars;
    assert RequiredVars[2].name == PostgresUrl && RequiredVars[2] in RequiredVars;
    if |r| == 0 {
      assert RequiredVars[0] !in r && RequiredVars[1] !in r && RequiredVars[2] !in r;
    } else {
      assert r[0] in r;
      assert r[0] == RequiredVars[0] || r[0] == RequiredVars[1] || r[0] == RequiredVars[2];
    }
  }

  /** The full check is the stricter of the two: it implies the `hasEnvVars` flag. */
  lemma HasAllImpliesHasEnvVars(env: Env)
    requires HasAllRequiredEnvVars(env)
    ensures HasEnvVars(env)
  {
    HasAllIffPresent(env);
  }

  /**
   * The converse fails: a whitespace-only value is set for `hasEnvVars` and missing
   * for the full check.
   */
  lemma WhitespaceValueDisagrees(env: Env, name: string)
    requires name in env && env[name] != "" && AllWhitespace(env[name])
    ensures IsTruthy(env, name) && IsMissing(env, name)
  {
    TrimIsTrimmed(env[name]);
  }

  /** So with a whitespace-only API key, `hasEnvVars` may hold while the full check reports it. */
  lemma FlagWithoutFullCheck(env: Env)
    requires HasEnvVars(env) && AllWhitespace(env[DeepSeekKey])
    ensures !HasAllRequiredEnvVars(env)
  {
    WhitespaceValueDisagrees(env, DeepSeekKey);
    HasAllIffPresent(env);
  }
}
