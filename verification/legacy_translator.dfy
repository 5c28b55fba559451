/** internal/translator/gemini.go: the older Gemini translator, driven by the legacy job
    record. It builds the same argument vector and quotes the command line the same way as
    the service translator, but its phrase list also holds "error:", it skips empty phrases,
    a failed exit carries the script's stderr, and the command line is logged unmasked.
    Running the script is replaced by its outcome (a ScriptRun). */
module LegacyTranslator {
  import opened GoText
  import LegacyJob
  import ScriptTranslator

  type ScriptRun = ScriptTranslator.ScriptRun
  type Invocation = ScriptTranslator.Invocation

  // ---------------------------------------------------------------- failure phrases

  /** The legacy phrase list: the five service phrases, in the same order, then "error:". */
  const LegacyIndicators: seq<string> := [
    "translationimpossibleerror",
    "failed to translate",
    "failed to communicate with provider",
    "saving partial results",
    "traceback (most recent call last)",
    "error:"
  ]

  /** The index of the first non-empty phrase, in list order, that occurs in text. */
  function FirstNonEmptyFound(indicators: seq<string>, text: string): (r: Option<nat>)
    ensures r.Some? ==> r.value < |indicators| && indicators[r.value] != ""
                        && Contains(text, indicators[r.value])
    ensures r.Some? ==> forall j :: 0 <= j < r.value ==> indicators[j] == "" || !Contains(text, indicators[j])
    ensures r.None? ==> forall j :: 0 <= j < |indicators| ==> indicators[j] == "" || !Contains(text, indicators[j])
  {
    if indicators == [] then None
    else if indicators[0] != "" && Contains(text, indicators[0]) then Some(0)
    else
      match FirstNonEmptyFound(indicators[1..], text)
      case None => None
      case Some(k) => Some(k + 1)
  }

  /** The first legacy phrase found in the lower-cased concatenation of the two streams. */
  function LegacyDetected(stdout: string, stderr: string): (r: Option<string>)
    ensures r.Some? ==> r.value in LegacyIndicators
  {
    match FirstNonEmptyFound(LegacyIndicators, ToLower(stdout + "\n" + stderr))
    case None => None
    case Some(k) => Some(LegacyIndicators[k])
  }

  /** detectScriptFailure: the phrases are tried in order, an empty one is passed over. */
  method DetectScriptFailure(stdout: string, stderr: string) returns (reason: string, failed: bool)
    ensures failed == LegacyDetected(stdout, stderr).Some?
    ensures failed ==> reason == LegacyDetected(stdout, stderr).value
    ensures !failed ==> reason == ""
  {
    var combined := ToLower(stdout + "\n" + stderr);
    for i := 0 to |LegacyIndicators|
      invariant forall j :: 0 <= j < i ==> LegacyIndicators[j] == "" || !Contains(combined, LegacyIndicators[j])
    {
      var indicator := LegacyIndicators[i];
      if indicator == "" {
        continue;
      }
      if Contains(combined, indicator) {
        return indicator, true;
      }
    }
    return "", false;
  }

  /** On a list without empty phrases, skipping empties changes nothing: the scan is the
      service scan. */
  lemma {:induction false} SkipNeverFires(indicators: seq<string>, text: string)
    requires forall j :: 0 <= j < |indicators| ==> indicators[j] != ""
    ensures FirstNonEmptyFound(indicators, text) == ScriptTranslator.FirstFound(indicators, text)
    decreases |indicators|
  {
    if indicators != [] {
      SkipNeverFires(indicators[1..], text);
    }
  }

  /** The legacy scan agrees with the service scan whenever the service scan finds a phrase,
      and otherwise reports "error:" exactly when that occurs. */
  lemma LegacyExtendsService(stdout: string, stderr: string)
    ensures var text := ToLower(stdout + "\n" + stderr);
            LegacyDetected(stdout, stderr) ==
              match ScriptTranslator.Detected(stdout, stderr)
              case Some(reason) => Some(reason)
              case None => if Contains(text, "error:") then Some("error:") else None
  {
    var text := ToLower(stdout + "\n" + stderr);
    var service := ScriptTranslator.FatalIndicators;
    assert LegacyIndicators == service + ["error:"];
    forall j | 0 <= j < |LegacyIndicators| ensures LegacyIndicators[j] != "" {
    }
    SkipNeverFires(LegacyIndicators, text);
    FirstFoundAppend(service, "error:", text);
  }

  /** Searching a list with one more phrase at the end. */
  lemma {:induction false} FirstFoundAppend(indicators: seq<string>, last: string, text: string)
    ensures ScriptTranslator.FirstFound(indicators + [last], text) ==
              match ScriptTranslator.FirstFound(indicators, text)
              case Some(k) => Some(k)
              case None => if Contains(text, last) then Some(|indicators|) else None
    decreases |indicators|
  {
    if indicators == [] {
      assert indicators + [last] == [last];
    } else {
      assert (indicators + [last])[1..] == indicators[1..] + [last];
      FirstFoundAppend(indicators[1..], last, text);
    }
  }

  /** "error:" in either stream, in any case, is a reported failure. */
  lemma ErrorColonFails(stdout: string, stderr: string)
    requires Contains(ToLower(stdout), "error:") || Contains(ToLower(stderr), "error:")
    ensures LegacyDetected(stdout, stderr).Some?
  {
    var text := ToLower(stdout + "\n" + stderr);
    ToLowerAppend(stdout + "\n", stderr);
    ToLowerAppend(stdout, "\n");
    var lo, ln, le := ToLower(stdout), ToLower("\n"), ToLower(stderr);
    assert text == lo + ln + le;
    if Contains(lo, "error:") {
      assert HasPrefix(lo + ln + le, lo) by { assert (lo + ln + le)[..|lo|] == lo; }
      ContainsPrefix(lo + ln + le, lo);
      ContainsTrans(text, lo, "error:");
    } else {
      assert OccursAt(lo + ln + le, le, |lo + ln|) by {
        assert (lo + ln + le)[|lo + ln|..|lo + ln| + |le|] == le;
      }
      ContainsTrans(text, le, "error:");
    }
    LegacyExtendsService(stdout, stderr);
  }

  // ---------------------------------------------------------------- Translate

  datatype LegacyError =
    | Invalid(invalid: LegacyJob.ValidationError)
    | SetupError(stage: ScriptTranslator.SetupStage, setupCause: string)
    | ScriptFailed(exitCause: string, stderr: string)
    | OutputNotFound
    | ScriptReportedFailure(reason: string)

  /** The checks after the script has run, in order: setup, exit status (the error carries the
      trimmed stderr), output file, then the legacy phrase scan over the trimmed streams. */
  function LegacyVerdict(run: ScriptRun, outputPath: string): (r: Result<string, LegacyError>)
    ensures r.Ok? <==> run.Ran? && run.exitError.None? && run.outputExists
                       && LegacyDetected(TrimSpace(run.stdout), TrimSpace(run.stderr)).None?
    ensures r.Ok? ==> r.value == outputPath
    ensures run.SetupFailed? ==> r == Err(SetupError(run.stage, run.cause))
    ensures run.Ran? && run.exitError.Some? ==> r == Err(ScriptFailed(run.exitError.value, TrimSpace(run.stderr)))
    ensures run.Ran? && run.exitError.None? && !run.outputExists ==> r == Err(OutputNotFound)
    ensures r.Err? && r.error.ScriptReportedFailure? ==> r.error.reason in LegacyIndicators
  {
    match run
    case SetupFailed(stage, cause) => Err(SetupError(stage, cause))
    case Ran(exitError, outputExists, stdout, stderr) =>
      if exitError.Some? then Err(ScriptFailed(exitError.value, TrimSpace(stderr)))
      else if !outputExists then Err(OutputNotFound)
      else
        match LegacyDetected(TrimSpace(stdout), TrimSpace(stderr))
        case Some(reason) => Err(ScriptReportedFailure(reason))
        case None => Ok(outputPath)
  }

  /** Translate: the validation error is returned as it is; otherwise the output path comes
      from the legacy rule, the script is invoked with the Gemini arguments and the key in
      GEMINI_API_KEY, the command line is logged as built, and the run is judged. */
  method Translate(t: ScriptTranslator.GeminiTranslator, msg: LegacyJob.Message, run: ScriptRun)
    returns (inv: Option<Invocation>, r: Result<string, LegacyError>)
    ensures LegacyJob.Validate(msg).Some? ==> inv.None? && r == Err(Invalid(LegacyJob.Validate(msg).value))
    ensures LegacyJob.Validate(msg).None? ==>
              var out := LegacyJob.OutputPath(msg, t.outputSuffix);
              var args := ScriptTranslator.GeminiArgs(msg.path, out, t.targetLanguage, t.apiKey, t.model,
                                                      msg.overview, t.instruction, t.rateLimit, t.maxBatchSize);
              inv == Some(ScriptTranslator.Invocation(t.scriptPath, args, if t.workDir != "" then Some(t.workDir) else None,
                                                      "GEMINI_API_KEY=" + t.apiKey,
                                                      ScriptTranslator.CommandLine(t.scriptPath, args)))
              && r == LegacyVerdict(run, out)
  {
    var invalid := LegacyJob.Validate(msg);
    if invalid.Some? {
      return None, Err(Invalid(invalid.value));
    }
    var outputPath := LegacyJob.OutputPath(msg, t.outputSuffix);
    var args := ScriptTranslator.BuildGeminiArgs(msg.path, outputPath, t.targetLanguage, t.apiKey, t.model,
                                                 msg.overview, t.instruction, t.rateLimit, t.maxBatchSize);
    var dir := if t.workDir != "" then Some(t.workDir) else None;
    var line := ScriptTranslator.BuildCommandLine(t.scriptPath, args);
    inv := Some(ScriptTranslator.Invocation(t.scriptPath, args, dir, "GEMINI_API_KEY=" + t.apiKey, line));
    r := LegacyVerdict(run, outputPath);
  }

  /** The legacy log line is not masked: when every word is plain, the eighth word of the
      logged command is the key itself. */
  lemma LegacyLogShowsKey(command: string, args: seq<string>, path: string, outputPath: string, language: string,
                          apiKey: string, model: string, overview: string, instruction: string,
                          rateLimit: int, maxBatchSize: int)
    requires args == ScriptTranslator.GeminiArgs(path, outputPath, language, apiKey, model, overview, instruction,
                                                 rateLimit, maxBatchSize)
    requires ScriptTranslator.Plain(command) && forall k :: 0 <= k < |args| ==> ScriptTranslator.Plain(args[k])
    ensures var words := SplitSpace(ScriptTranslator.CommandLine(command, args));
            |words| > 7 && words[7] == apiKey
  {
    assert |args| >= 7 && args[6] == apiKey by {
      ScriptTranslator.GeminiArgsShape(path, outputPath, language, apiKey, model, overview, instruction, rateLimit, maxBatchSize);
      KeyInHead(args, path, outputPath, language, apiKey);
    }
    ScriptTranslator.PlainCommandLine(command, args);
    WordAfterCommand(SplitSpace(ScriptTranslator.CommandLine(command, args)), command, args);
  }

  /** The words of a command line that splits back into its parts. */
  lemma WordAfterCommand(words: seq<string>, command: string, args: seq<string>)
    requires words == [command] + args && |args| >= 7
    ensures |words| > 7 && words[7] == args[6]
  {
  }

  /** The key is the seventh argument of the Gemini head. */
  lemma KeyInHead(args: seq<string>, path: string, outputPath: string, language: string, apiKey: string)
    requires |args| >= 7 && args[..7] == [path, "-o", outputPath, "-l", language, "-k", apiKey]
    ensures args[6] == apiKey
  {
    assert args[6] == args[..7][6];
  }
}
