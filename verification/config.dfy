/** internal/config/config.go: the worker's settings, their validation, the environment
    lookups with fallbacks and the view of the settings that is safe to log. The process
    environment is a map from variable name to value. */
module Config {
  import opened GoText
  import Mask

  /** Durations are whole nanoseconds, as Go's time.Duration. */
  datatype Config = Config(
    redisUrl: string,
    redisQueue: string,
    callbackUrl: string,
    geminiApiKey: string,
    geminiModel: string,
    geminiScriptPath: string,
    geminiWorkingDir: string,
    geminiInstruction: string,
    geminiMaxBatchSize: int,
    targetLanguage: string,
    outputSuffix: string,
    pollTimeout: int,
    scriptTimeout: int,
    httpTimeout: int,
    httpMaxRetries: int,
    rateLimit: int,
    logLevel: string)

  type Env = map<string, string>

  /** The settings Validate insists on, with the variable each one is read from, in the
      order in which they are checked. */
  const RequiredNames: seq<string> :=
    ["REDIS_URL", "REDIS_QUEUE", "CALLBACK_URL", "GEMINI_API_KEY", "GEMINI_SCRIPT_PATH", "GEMINI_WORKDIR"]

  function RequiredValues(c: Config): (r: seq<string>)
    ensures |r| == |RequiredNames|
  {
    [c.redisUrl, c.redisQueue, c.callbackUrl, c.geminiApiKey, c.geminiScriptPath, c.geminiWorkingDir]
  }

  /** The error Validate returns: the variable of a required setting that is empty (Go's
      message is the variable's name followed by " is required"). */
  datatype ConfigError = Required(variable: string)

  /** Validate: the error names the first required setting, in the fixed order, that is
      empty; None when all six are set. */
  function Validate(c: Config): (r: Option<ConfigError>)
    ensures r == None <==> forall k :: 0 <= k < |RequiredNames| ==> RequiredValues(c)[k] != ""
    ensures forall k :: 0 <= k < |RequiredNames| && RequiredValues(c)[k] == ""
                        && (forall j :: 0 <= j < k ==> RequiredValues(c)[j] != "")
                        ==> r == Some(Required(RequiredNames[k]))
  {
    var v := RequiredValues(c);
    assert v[0] == c.redisUrl && v[1] == c.redisQueue && v[2] == c.callbackUrl;
    assert v[3] == c.geminiApiKey && v[4] == c.geminiScriptPath && v[5] == c.geminiWorkingDir;
    if c.redisUrl == "" then Some(Required("REDIS_URL"))
    else if c.redisQueue == "" then Some(Required("REDIS_QUEUE"))
    else if c.callbackUrl == "" then Some(Required("CALLBACK_URL"))
    else if c.geminiApiKey == "" then Some(Required("GEMINI_API_KEY"))
    else if c.geminiScriptPath == "" then Some(Required("GEMINI_SCRIPT_PATH"))
    else if c.geminiWorkingDir == "" then Some(Required("GEMINI_WORKDIR"))
    else None
  }

  /** Settings that agree on the six required values validate alike, whatever else they hold. */
  lemma ValidateReadsOnlyRequired(c: Config, d: Config)
    requires RequiredValues(c) == RequiredValues(d)
    ensures Validate(c) == Validate(d)
  {
    assert c.redisUrl == RequiredValues(c)[0] && c.redisQueue == RequiredValues(c)[1];
    assert c.callbackUrl == RequiredValues(c)[2] && c.geminiApiKey == RequiredValues(c)[3];
    assert c.geminiScriptPath == RequiredValues(c)[4] && c.geminiWorkingDir == RequiredValues(c)[5];
  }

  /** getEnv: a variable that is set gives its value, even an empty one; the fallback is
      used only for a variable that is not set. */
  function GetEnv(env: Env, key: string, fallback: string): (r: string)
    ensures key in env ==> r == env[key]
    ensures key !in env ==> r == fallback
  {
    if key in env then env[key] else fallback
  }

  datatype ParseError = InvalidInteger(key: string)

  /** parseInt: an unset or empty variable gives the fallback; otherwise the value must be
      a 64-bit decimal integer, and an error names the variable. */
  function ParseInt(env: Env, key: string, fallback: int): (r: Result<int, ParseError>)
    ensures (key !in env || env[key] == "") ==> r == Ok(fallback)
    ensures key in env && env[key] != "" ==>
              (r.Ok? <==> Atoi(env[key]).Some?) && (r.Ok? ==> r.value == Atoi(env[key]).value)
    ensures r.Err? ==> r.error == InvalidInteger(key)
  {
    var value := GetEnv(env, key, "");
    if value == "" then Ok(fallback)
    else
      match Atoi(value)
      case None => Err(InvalidInteger(key))
      case Some(i) => Ok(i)
  }

  /** A variable holding the decimal form of any 64-bit value parses back to that value. */
  lemma ParseIntItoa(env: Env, key: string, fallback: int, n: int)
    requires MinInt64 <= n <= MaxInt64
    requires key in env && env[key] == Itoa(n)
    ensures ParseInt(env, key, fallback) == Ok(n)
  {
    AtoiItoa(n);
    assert Itoa(n) != "";
  }

  /** maskSecret: the masking rule of the config package, a copy of util.MaskSecret. */
  function MaskSecret(value: string): (r: string)
    ensures |r| == |value|
  {
    if value == "" then ""
    else if |value| <= 4 then Stars(|value|)
    else value[..4] + Stars(|value| - 4)
  }

  /** The two copies of the masking rule agree on every input. */
  lemma MaskCopiesAgree(value: string)
    ensures MaskSecret(value) == Mask.MaskSecret(value)
  {
  }

  /** The values of the map SafeLogValues returns. */
  datatype LogValue = Text(s: string) | Number(n: int)

  /** SafeLogValues: every setting under its log key, the Gemini key masked. */
  function SafeLogValues(c: Config): (r: map<string, LogValue>)
    ensures "gemini_api_key" in r && r["gemini_api_key"] == Text(MaskSecret(c.geminiApiKey))
  {
    map[
      "redis_url" := Text(c.redisUrl),
      "redis_queue" := Text(c.redisQueue),
      "callback_url" := Text(c.callbackUrl),
      "gemini_api_key" := Text(MaskSecret(c.geminiApiKey)),
      "gemini_model" := Text(c.geminiModel),
      "gemini_script_path" := Text(c.geminiScriptPath),
      "gemini_working_dir" := Text(c.geminiWorkingDir),
      "gemini_instruction" := Text(c.geminiInstruction),
      "gemini_max_batch" := Number(c.geminiMaxBatchSize),
      "target_language" := Text(c.targetLanguage),
      "output_suffix" := Text(c.outputSuffix),
      "poll_timeout" := Number(c.pollTimeout),
      "script_timeout" := Number(c.scriptTimeout),
      "http_timeout" := Number(c.httpTimeout),
      "http_max_retries" := Number(c.httpMaxRetries),
      "rate_limit" := Number(c.rateLimit),
      "log_level" := Text(c.logLevel)
    ]
  }

  /** The logged view depends on the Gemini key only through its length and its first four
      characters: two settings that differ only beyond that log alike. */
  lemma SafeLogHidesKey(c: Config, key: string)
    requires |key| == |c.geminiApiKey|
    requires |key| > 4 ==> key[..4] == c.geminiApiKey[..4]
    ensures SafeLogValues(c.(geminiApiKey := key)) == SafeLogValues(c)
  {
    MaskCopiesAgree(key);
    MaskCopiesAgree(c.geminiApiKey);
    Mask.MaskRevealsOnlyPrefix(key, c.geminiApiKey);
  }
}
