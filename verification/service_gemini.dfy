/** internal/service/translator/gemini.go: the Gemini translator of the service layer. Its
    constructor takes the script location from the environment, with defaults, and Translate
    builds the command that the shared script runner executes. That runner is not part of
    this model: Translate returns the command and the output path it is given. */
module GeminiService {
  import opened GoText
  import JobTypes
  import ScriptTranslator

  /** The Gemini part of the configuration. */
  datatype GeminiConfig = GeminiConfig(
    apiKey: string,
    model: string,
    instruction: string,
    maxBatchSize: int,
    rateLimit: int)

  /** os.Getenv with a default: an unset or empty variable gives the default. */
  function EnvOr(env: map<string, string>, name: string, fallback: string): (r: string)
    ensures name in env && env[name] != "" ==> r == env[name]
    ensures (name !in env || env[name] == "") ==> r == fallback
    ensures fallback != "" ==> r != ""
  {
    if name in env && env[name] != "" then env[name] else fallback
  }

  const DefaultScriptPath: string := "/opt/llm-subtrans/gemini-subtrans.sh"
  const DefaultWorkDir: string := "/opt/llm-subtrans"

  datatype GeminiTranslator = GeminiTranslator(
    scriptPath: string,
    workDir: string,
    apiKey: string,
    model: string,
    instruction: string,
    maxBatchSize: int,
    rateLimit: int,
    targetLanguage: string,
    outputSuffix: string)

  /** NewGeminiTranslator: script and directory from GEMINI_SCRIPT_PATH and GEMINI_WORKDIR,
      else the defaults; the rest is copied; the rate limit gets no default. */
  function NewGeminiTranslator(cfg: GeminiConfig, env: map<string, string>, targetLang: string, outputSuffix: string)
    : (t: GeminiTranslator)
    ensures t.scriptPath != "" && t.workDir != ""
    ensures t.scriptPath == EnvOr(env, "GEMINI_SCRIPT_PATH", DefaultScriptPath)
    ensures t.workDir == EnvOr(env, "GEMINI_WORKDIR", DefaultWorkDir)
    ensures t.apiKey == cfg.apiKey && t.model == cfg.model && t.instruction == cfg.instruction
    ensures t.maxBatchSize == cfg.maxBatchSize && t.rateLimit == cfg.rateLimit
    ensures t.targetLanguage == targetLang && t.outputSuffix == outputSuffix
  {
    GeminiTranslator(EnvOr(env, "GEMINI_SCRIPT_PATH", DefaultScriptPath), EnvOr(env, "GEMINI_WORKDIR", DefaultWorkDir),
                     cfg.apiKey, cfg.model, cfg.instruction, cfg.maxBatchSize, cfg.rateLimit, targetLang, outputSuffix)
  }

  /** What Translate hands to the script runner: the command and the output path to check. */
  datatype Launch = Launch(inv: ScriptTranslator.Invocation, outputPath: string)

  /** The argument vector for a message. */
  function ArgsFor(t: GeminiTranslator, msg: JobTypes.JobMessage): seq<string> {
    ScriptTranslator.GeminiArgs(msg.path, JobTypes.OutputPath(msg, t.outputSuffix), t.targetLanguage, t.apiKey,
                                t.model, msg.overview, t.instruction, t.rateLimit, t.maxBatchSize)
  }

  /** Translate: an invalid message is rejected before any argument is built; otherwise the
      script is run in the working directory (when set) with the Gemini arguments and the key
      in GEMINI_API_KEY, and the masked command line is logged. */
  method Translate(t: GeminiTranslator, msg: JobTypes.JobMessage) returns (r: Result<Launch, JobTypes.ValidationError>)
    ensures JobTypes.Validate(msg).Some? ==> r == Err(JobTypes.Validate(msg).value)
    ensures JobTypes.Validate(msg).None? ==>
              var args := ArgsFor(t, msg);
              r == Ok(Launch(ScriptTranslator.Invocation(t.scriptPath, args, if t.workDir != "" then Some(t.workDir) else None,
                                                         "GEMINI_API_KEY=" + t.apiKey,
                                                         ScriptTranslator.MaskApiKeyInCommand(ScriptTranslator.CommandLine(t.scriptPath, args))),
                             JobTypes.OutputPath(msg, t.outputSuffix)))
  {
    var invalid := JobTypes.Validate(msg);
    if invalid.Some? {
      return Err(invalid.value);
    }
    var outputPath := JobTypes.OutputPath(msg, t.outputSuffix);
    var args := ScriptTranslator.BuildGeminiArgs(msg.path, outputPath, t.targetLanguage, t.apiKey, t.model,
                                                 msg.overview, t.instruction, t.rateLimit, t.maxBatchSize);
    var dir := if t.workDir != "" then Some(t.workDir) else None;
    var line := ScriptTranslator.BuildCommandLine(t.scriptPath, args);
    var inv := ScriptTranslator.Invocation(t.scriptPath, args, dir, "GEMINI_API_KEY=" + t.apiKey,
                                           ScriptTranslator.MaskApiKeyInCommand(line));
    return Ok(Launch(inv, outputPath));
  }

  /** The argument vector as the script reads it: the input path, the output path after -o,
      the language after -l and the key after -k; -m only with a model; -d with the trimmed
      overview only when that is not blank; --ratelimit only when the rate limit is positive
      (there is no default, so 0 means none). */
  lemma ArgsReadBack(t: GeminiTranslator, msg: JobTypes.JobMessage)
    ensures var args := ArgsFor(t, msg);
            var opts := ScriptTranslator.Pairs(args[7..]);
            |args| >= 7 && args[0] == msg.path
            && args[1] == "-o" && args[2] == JobTypes.OutputPath(msg, t.outputSuffix)
            && args[3] == "-l" && args[4] == t.targetLanguage
            && args[5] == "-k" && args[6] == t.apiKey
            && ScriptTranslator.Lookup(opts, "-m") == (if t.model != "" then Some(t.model) else None)
            && ScriptTranslator.Lookup(opts, "-d") == (if TrimSpace(msg.overview) != "" then Some(TrimSpace(msg.overview)) else None)
            && ScriptTranslator.Lookup(opts, "--ratelimit") == (if t.rateLimit > 0 then Some(Itoa(t.rateLimit)) else None)
  {
    var out := JobTypes.OutputPath(msg, t.outputSuffix);
    ScriptTranslator.GeminiArgsShape(msg.path, out, t.targetLanguage, t.apiKey, t.model,
                                     msg.overview, t.instruction, t.rateLimit, t.maxBatchSize);
    var args := ArgsFor(t, msg);
    assert args[..7] == [msg.path, "-o", out, "-l", t.targetLanguage, "-k", t.apiKey];
    assert args[0] == args[..7][0] && args[1] == args[..7][1] && args[2] == args[..7][2];
    assert args[3] == args[..7][3] && args[4] == args[..7][4];
    assert args[5] == args[..7][5] && args[6] == args[..7][6];
  }
}
