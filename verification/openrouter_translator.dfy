/** internal/service/translator/openrouter.go: the OpenRouter translator. Its only changing
    field is the model, which the model selector updates while jobs run; Translate reads it
    once and builds the llm-subtrans command from that snapshot. The script runner is not
    part of this model: Translate returns the command and the output path it is given. */
module OpenRouterService {
  import opened GoText
  import JobTypes
  import Mask
  import ScriptTranslator
  import GeminiService

  /** The OpenRouter part of the configuration. */
  datatype OpenRouterConfig = OpenRouterConfig(
    apiKey: string,
    model: string,
    autoSelectModel: bool,
    instruction: string,
    maxBatchSize: int,
    rateLimit: int)

  const DefaultScriptPath: string := "/opt/llm-subtrans/llm-subtrans.sh"
  const DefaultWorkDir: string := "/opt/llm-subtrans"

  /** Requests per minute when none is configured. */
  const DefaultRateLimit: int := 10

  /** The rate limit in effect: only 0 counts as unset; any other value, negative ones
      included, is kept. */
  function EffectiveRateLimit(configured: int): (r: int)
    ensures configured == 0 ==> r == DefaultRateLimit
    ensures configured != 0 ==> r == configured
  {
    if configured == 0 then DefaultRateLimit else configured
  }

  /** What the script reads for --ratelimit: 10 when unset, the value when positive, and
      nothing at all for a negative value. */
  lemma RateLimitFlag(configured: int, overview: string, instruction: string, maxBatchSize: int)
    ensures ScriptTranslator.Lookup(ScriptTranslator.TailFlags(overview, instruction, EffectiveRateLimit(configured), maxBatchSize), "--ratelimit")
            == if configured == 0 then Some("10") else if configured > 0 then Some(Itoa(configured)) else None
  {
    if configured == 0 {
      ItoaTen();
    }
  }

  lemma ItoaTen()
    ensures Itoa(10) == "10"
  {
    assert NatToDecimal(1) == ['1'];
    assert NatToDecimal(10) == NatToDecimal(1) + ['0'];
  }

  /** The argument vector of llm-subtrans: input, output, language, --apikey and --model
      always (the model even when empty), then the tail options. */
  function OpenRouterArgs(path: string, outputPath: string, language: string, apiKey: string, model: string,
                          overview: string, instruction: string, rateLimit: int, maxBatchSize: int): seq<string>
  {
    [path, "-o", outputPath, "-l", language, "--apikey", apiKey, "--model", model]
      + ScriptTranslator.Flatten(ScriptTranslator.TailFlags(overview, instruction, rateLimit, maxBatchSize))
  }

  /** The nine fixed words come first, and the script reads the rest back as the tail options. */
  lemma OpenRouterArgsShape(path: string, outputPath: string, language: string, apiKey: string, model: string,
                            overview: string, instruction: string, rateLimit: int, maxBatchSize: int)
    ensures var r := OpenRouterArgs(path, outputPath, language, apiKey, model, overview, instruction, rateLimit, maxBatchSize);
            |r| >= 9
            && r[..9] == [path, "-o", outputPath, "-l", language, "--apikey", apiKey, "--model", model]
            && ScriptTranslator.Pairs(r[9..]) == ScriptTranslator.TailFlags(overview, instruction, rateLimit, maxBatchSize)
  {
    var head := [path, "-o", outputPath, "-l", language, "--apikey", apiKey, "--model", model];
    var flags := ScriptTranslator.TailFlags(overview, instruction, rateLimit, maxBatchSize);
    var r := head + ScriptTranslator.Flatten(flags);
    assert r[..9] == head;
    assert r[9..] == ScriptTranslator.Flatten(flags);
    ScriptTranslator.PairsFlatten(flags);
  }

  /** The argument building of Translate. */
  method BuildOpenRouterArgs(path: string, outputPath: string, language: string, apiKey: string, model: string,
                             overview: string, instruction: string, rateLimit: int, maxBatchSize: int)
    returns (args: seq<string>)
    ensures args == OpenRouterArgs(path, outputPath, language, apiKey, model, overview, instruction, rateLimit, maxBatchSize)
  {
    args := [path, "-o", outputPath, "-l", language, "--apikey", apiKey, "--model", model];
    args := ScriptTranslator.AppendTailFlags(args, overview, instruction, rateLimit, maxBatchSize);
  }

  // ---------------------------------------------------------------- the log line

  /** The words of an argument vector as they should be logged: a word right after "-k" or
      "--apikey" is masked, every other word is kept. */
  function RedactKeys(args: seq<string>): (r: seq<string>)
    ensures |r| == |args|
    ensures forall i :: 0 <= i < |args| ==>
              r[i] == if i > 0 && (args[i - 1] == "-k" || args[i - 1] == "--apikey") then Mask.MaskSecret(args[i]) else args[i]
  {
    seq(|args|, i requires 0 <= i < |args| =>
      if i > 0 && (args[i - 1] == "-k" || args[i - 1] == "--apikey") then Mask.MaskSecret(args[i]) else args[i])
  }

  /** The line written to the Debug log, as written: the -k masking of the shared helper,
      which does not know --apikey. */
  function LogLineAsWritten(command: string, args: seq<string>): string {
    ScriptTranslator.MaskApiKeyInCommand(ScriptTranslator.CommandLine(command, args))
  }

  /** The line written to the Debug log, corrected: the key after --apikey is masked before
      the line is built. */
  function LogLine(command: string, args: seq<string>): string {
    ScriptTranslator.CommandLine(command, RedactKeys(args))
  }

  /** As written, the key reaches the log in clear: with plain words and no "-k" anywhere in
      the line, the eighth word of the logged line is the key. */
  lemma KeyLoggedInClear(command: string, args: seq<string>, path: string, outputPath: string, language: string,
                         apiKey: string, model: string, overview: string, instruction: string,
                         rateLimit: int, maxBatchSize: int)
    requires args == OpenRouterArgs(path, outputPath, language, apiKey, model, overview, instruction, rateLimit, maxBatchSize)
    requires ScriptTranslator.Plain(command) && forall k :: 0 <= k < |args| ==> ScriptTranslator.Plain(args[k])
    requires !Contains(ScriptTranslator.CommandLine(command, args), "-k")
    ensures var words := SplitSpace(LogLineAsWritten(command, args));
            |words| > 7 && words[7] == apiKey
  {
    OpenRouterArgsShape(path, outputPath, language, apiKey, model, overview, instruction, rateLimit, maxBatchSize);
    KeyAt(args, path, outputPath, language, apiKey, model);
    ScriptTranslator.MaskWithoutFlag(ScriptTranslator.CommandLine(command, args));
    ScriptTranslator.PlainCommandLine(command, args);
  }

  /** Corrected, the eighth word of the logged line is the masked key, which shows at most
      its first four characters. */
  lemma KeyLoggedMasked(command: string, args: seq<string>, path: string, outputPath: string, language: string,
                        apiKey: string, model: string, overview: string, instruction: string,
                        rateLimit: int, maxBatchSize: int)
    requires args == OpenRouterArgs(path, outputPath, language, apiKey, model, overview, instruction, rateLimit, maxBatchSize)
    requires ScriptTranslator.Plain(command) && forall k :: 0 <= k < |args| ==> ScriptTranslator.Plain(args[k])
    ensures var words := SplitSpace(LogLine(command, args));
            |words| > 7 && words[7] == Mask.MaskSecret(apiKey)
  {
    OpenRouterArgsShape(path, outputPath, language, apiKey, model, overview, instruction, rateLimit, maxBatchSize);
    KeyAt(args, path, outputPath, language, apiKey, model);
    var red := RedactKeys(args);
    RedactKeepsPlain(args);
    ScriptTranslator.PlainCommandLine(command, red);
    assert red[6] == Mask.MaskSecret(apiKey);
  }

  /** The key is the seventh argument, right after --apikey. */
  lemma KeyAt(args: seq<string>, path: string, outputPath: string, language: string, apiKey: string, model: string)
    requires |args| >= 9 && args[..9] == [path, "-o", outputPath, "-l", language, "--apikey", apiKey, "--model", model]
    ensures args[5] == "--apikey" && args[6] == apiKey
  {
    assert args[5] == args[..9][5] && args[6] == args[..9][6];
  }

  /** Redacting plain words keeps them plain. */
  lemma RedactKeepsPlain(args: seq<string>)
    requires forall k :: 0 <= k < |args| ==> ScriptTranslator.Plain(args[k])
    ensures forall k :: 0 <= k < |args| ==> ScriptTranslator.Plain(RedactKeys(args)[k])
  {
    forall k | 0 <= k < |args| ensures ScriptTranslator.Plain(RedactKeys(args)[k]) {
      MaskKeepsPlain(args[k]);
    }
  }

  /** Masking a plain word gives a plain word. */
  lemma MaskKeepsPlain(w: string)
    requires ScriptTranslator.Plain(w)
    ensures ScriptTranslator.Plain(Mask.MaskSecret(w))
  {
    var m := Mask.MaskSecret(w);
    forall i | 0 <= i < |m| ensures m[i] !in ScriptTranslator.ShellSpecial {
      if i < Mask.Keep && |w| > Mask.Keep {
        assert m[i] == m[..Mask.Keep][i] == w[..Mask.Keep][i] == w[i];
      }
    }
  }

  // ---------------------------------------------------------------- the translator

  class OpenRouterTranslator {
    const scriptPath: string
    const workDir: string
    const apiKey: string
    var model: string
    const instruction: string
    const maxBatchSize: int
    const rateLimit: int
    const targetLanguage: string
    const outputSuffix: string

    /** NewOpenRouterTranslator: script and directory from LLM_SUBTRANS_SCRIPT_PATH and
        LLM_SUBTRANS_DIR, else the defaults; a rate limit of 0 becomes 10. */
    constructor(cfg: OpenRouterConfig, env: map<string, string>, targetLang: string, suffix: string)
      ensures scriptPath == GeminiService.EnvOr(env, "LLM_SUBTRANS_SCRIPT_PATH", DefaultScriptPath)
      ensures workDir == GeminiService.EnvOr(env, "LLM_SUBTRANS_DIR", DefaultWorkDir)
      ensures scriptPath != "" && workDir != ""
      ensures apiKey == cfg.apiKey && model == cfg.model && instruction == cfg.instruction
      ensures maxBatchSize == cfg.maxBatchSize && rateLimit == EffectiveRateLimit(cfg.rateLimit)
      ensures targetLanguage == targetLang && outputSuffix == suffix
    {
      scriptPath := GeminiService.EnvOr(env, "LLM_SUBTRANS_SCRIPT_PATH", DefaultScriptPath);
      workDir := GeminiService.EnvOr(env, "LLM_SUBTRANS_DIR", DefaultWorkDir);
      var limit := cfg.rateLimit;
      if limit == 0 {
        limit := DefaultRateLimit;
      }
      apiKey := cfg.apiKey;
      model := cfg.model;
      instruction := cfg.instruction;
      maxBatchSize := cfg.maxBatchSize;
      rateLimit := limit;
      targetLanguage := targetLang;
      outputSuffix := suffix;
    }

    /** UpdateModel: the model is replaced; nothing else can change. */
    method UpdateModel(newModel: string)
      modifies this
      ensures model == newModel
    {
      model := newModel;
    }

    /** GetModel: the current model. */
    method GetModel() returns (m: string)
      ensures m == model
    {
      m := model;
    }

    /** Translate: an invalid message is rejected before the model is read; otherwise the
        arguments are built from one reading of the model, the key also goes in
        OPENROUTER_API_KEY, and the command line goes through the -k masking of the shared
        helper before it is logged, which leaves the key after --apikey in clear
        (KeyLoggedInClear; the corrected line is LogLine). */
    method Translate(msg: JobTypes.JobMessage) returns (r: Result<GeminiService.Launch, JobTypes.ValidationError>)
      ensures JobTypes.Validate(msg).Some? ==> r == Err(JobTypes.Validate(msg).value)
      ensures JobTypes.Validate(msg).None? ==>
                var out := JobTypes.OutputPath(msg, outputSuffix);
                var args := OpenRouterArgs(msg.path, out, targetLanguage, apiKey, model,
                                           msg.overview, instruction, rateLimit, maxBatchSize);
                r == Ok(GeminiService.Launch(
                       ScriptTranslator.Invocation(scriptPath, args, if workDir != "" then Some(workDir) else None,
                                                   "OPENROUTER_API_KEY=" + apiKey, LogLineAsWritten(scriptPath, args)),
                       out))
      ensures r.Ok? && ScriptTranslator.Plain(scriptPath)
              && (forall k :: 0 <= k < |r.value.inv.args| ==> ScriptTranslator.Plain(r.value.inv.args[k]))
              && !Contains(ScriptTranslator.CommandLine(scriptPath, r.value.inv.args), "-k")
              ==> var words := SplitSpace(r.value.inv.logLine);
                  |words| > 7 && words[7] == apiKey
    {
      var invalid := JobTypes.Validate(msg);
      if invalid.Some? {
        return Err(invalid.value);
      }
      var outputPath := JobTypes.OutputPath(msg, outputSuffix);
      var currentModel := GetModel();
      var args := BuildOpenRouterArgs(msg.path, outputPath, targetLanguage, apiKey, currentModel,
                                      msg.overview, instruction, rateLimit, maxBatchSize);
      var dir := if workDir != "" then Some(workDir) else None;
      var plainLine := ScriptTranslator.BuildCommandLine(scriptPath, args);
      var line := ScriptTranslator.MaskApiKeyInCommand(plainLine);
      var inv := ScriptTranslator.Invocation(scriptPath, args, dir, "OPENROUTER_API_KEY=" + apiKey, line);
      if ScriptTranslator.Plain(scriptPath) && (forall k :: 0 <= k < |args| ==> ScriptTranslator.Plain(args[k]))
         && !Contains(ScriptTranslator.CommandLine(scriptPath, args), "-k") {
        KeyLoggedInClear(scriptPath, args, msg.path, outputPath, targetLanguage, apiKey, currentModel,
                         msg.overview, instruction, rateLimit, maxBatchSize);
      }
      return Ok(GeminiService.Launch(inv, outputPath));
    }
  }
}
