# fusionn-subs in Dafny

fusionn-subs is a queue worker that translates subtitles. It pops a job (a subtitle path, a
video path and an overview) from a Redis list, works out where the translated subtitle goes,
runs an external translation script (the Gemini script, or llm-subtrans for OpenRouter) and
reports the result to a callback URL. An optional model selector fetches OpenRouter's
catalogue every day, asks Gemini which free model is best for translation and retargets the
OpenRouter translator at the model it picks.

This project models the decision and string logic of that worker. Each Go file of the core
is one Dafny module:

| module | file | form |
|---|---|---|
| `JobTypes` | internal/types/job.go | functions |
| `LegacyJob` | internal/job/message.go | functions |
| `Mask` | internal/util/mask.go | functions |
| `Config` | internal/config/config.go | functions |
| `Logging` | internal/logging/logger.go | functions |
| `OpenRouterClient` | internal/client/openrouter/client.go | functions, and a method for the filter loop |
| `Evaluator` | internal/service/modelselection/evaluator.go | functions, and methods for the matching loops |
| `Selector` | internal/service/modelselection/selector.go | a class whose methods update the selection state |
| `ScriptTranslator` | internal/service/translator/translator.go | methods that build slices by appending, proved against functions |
| `LegacyTranslator` | internal/translator/gemini.go | the same, with the legacy phrase list and log line |
| `GeminiService` | internal/service/translator/gemini.go | a constructor function and a Translate method |
| `OpenRouterService` | internal/service/translator/openrouter.go | a class with a mutable model |
| `TranslatorFactory` | internal/service/translator/factory.go | a provider choice and a method |
| `Worker` | internal/service/worker/worker.go | the backoff loop as a method, proved against a function |

`GoText` holds the parts of Go's standard library the core relies on. It works on ASCII
strings:

- `strings.TrimSpace`, `ToLower`, `Contains`, `Index`, `LastIndex` and `HasSuffix`;
- `filepath.Ext`;
- `strings.Join` and splitting on single spaces;
- `strconv.Itoa`, `Atoi` and the shape of `strconv.Quote`.

The outside world is replaced by values:

- the environment is a map from variable name to value;
- an HTTP response, the outcome of running the script and a Redis reply are datatypes passed in;
- a decoded job message is a `decode` function parameter;
- time is whole seconds, plus the local hour for the scheduler.

Where a translator would start a subprocess, it returns an `Invocation`: the command, the
arguments, the directory, the extra environment variable and the line written to the log.

Some behaviour of the code is worth knowing:

- The credential is passed in the argument vector (after `-k` or `--apikey`) as well as in
  the environment, although the comment at internal/service/translator/gemini.go:97 says
  "environment only". `GeminiService.ArgsReadBack` states where it sits.
- `"movie.srt"` with the suffix `".chs"` becomes `"movie.chs"`: the trailing `.srt` is
  replaced, not kept (`JobTypes.SrtExample`).
- The legacy translator writes the unmasked command line, key included, to its Info log
  (`LegacyTranslator.LegacyLogShowsKey`).
- The OpenRouter translator writes its key in clear to its Debug log (see "## Findings").
- An evaluation records the time it finished, and the next one waits 23 hours from then. On
  the day clocks spring forward, the scheduled-hour tick comes 23 hours after the previous
  day's tick, so the daily evaluation is skipped whenever the previous one took any time
  (`Selector.SpringForwardSkipped`).

## Model

| member | source | states |
|---|---|---|
| JobTypes.Validate | internal/types/job.go:17-23 | a message is invalid exactly when its path is blank after trimming |
| JobTypes.Replacement | internal/types/job.go:35-38 | the marker is the cleaned suffix up to its first dot (the dot follows it), or the whole cleaned suffix when it has no dot; the marker has no dot |
| JobTypes.OutputPath | internal/types/job.go:25-59 | an empty suffix, or one that is only a dot, leaves the path unchanged |
| JobTypes.EngRule | internal/types/job.go:40-45 | the last ".eng" (any case) keeps its dot and its "eng" becomes the marker; what follows is kept |
| JobTypes.SrtRule | internal/types/job.go:47-50 | without ".eng", a trailing ".srt" (any case) is replaced by "." + cleaned suffix |
| JobTypes.ExtRule | internal/types/job.go:52-56 | without ".eng" or ".srt", "." + cleaned suffix goes in front of the extension |
| JobTypes.AppendRule | internal/types/job.go:58 | with none of those, "." + cleaned suffix is appended |
| JobTypes.LeadingDotIgnored | internal/types/job.go:30 | "chs" and ".chs" give the same output path |
| JobTypes.OutputCarriesMarker | internal/types/job.go:25-59 | whatever rule applies, the output contains "." followed by the marker |
| JobTypes.EngMarkerExample | internal/types/job.go:41-44 | "movie.eng.srt" with "chs" gives "movie.chs.srt" |
| JobTypes.ExtensionExample | internal/types/job.go:52-56 | "movie.mp4" with "chs" gives "movie.chs.mp4" |
| JobTypes.SrtExample | internal/types/job.go:47-50 | "movie.srt" with ".chs" gives "movie.chs" |
| JobTypes.EngInsideWord | internal/types/job.go:40-44 | ".eng" also matches inside a word: "The.Engineer.srt" gives "The.chsineer.srt" |
| LegacyJob.Validate | internal/job/message.go:17-23 | invalid exactly when the path is blank after trimming |
| LegacyJob.OutputPath | internal/job/message.go:25-53 | an empty cleaned suffix leaves the path unchanged |
| LegacyJob.EngSrtRule | internal/job/message.go:36-39 | a trailing ".eng.srt" (any case) is replaced as a whole by "." + cleaned suffix |
| LegacyJob.EngSrtEndsInSrt | internal/job/message.go:36-44 | every ".eng.srt" path also ends in ".srt", so the ".eng.srt" rule must be tried first |
| LegacyJob.SrtRule | internal/job/message.go:41-44 | without ".eng.srt", a trailing ".srt" is replaced by "." + cleaned suffix |
| LegacyJob.ExtRule | internal/job/message.go:46-50 | without ".srt", "." + cleaned suffix goes in front of the extension |
| LegacyJob.AppendRule | internal/job/message.go:52 | without ".srt" or an extension, "." + cleaned suffix is appended |
| LegacyJob.EngSrtExample | internal/job/message.go:36-39 | "movie.eng.srt" with "chs" gives "movie.chs" |
| LegacyJob.CurrentKeepsSrt | internal/job/message.go:36-39 | for ".eng.srt" paths and dot-free suffixes the current rule gives the legacy result with ".srt" kept |
| Mask.MaskSecret | internal/util/mask.go:6-15 | length kept; empty stays empty; up to 4 chars all stars; longer keeps the first 4, then stars |
| Mask.MaskRevealsOnlyPrefix | internal/util/mask.go:10-14 | secrets with the same length and the same first 4 chars mask alike |
| Mask.MaskIdempotent | internal/util/mask.go:6-15 | masking a masked value changes nothing |
| Config.Validate | internal/config/config.go:82-99 | no error iff all six required settings are set; otherwise the first empty one in fixed order is named |
| Config.ValidateReadsOnlyRequired | internal/config/config.go:82-99 | settings that agree on the six required values validate alike |
| Config.GetEnv | internal/config/config.go:101-107 | a set variable gives its value even when empty; the fallback only when unset |
| Config.ParseInt | internal/config/config.go:119-131 | unset or empty gives the fallback; otherwise ok exactly when the value parses; the error names the key |
| Config.ParseIntItoa | internal/config/config.go:119-131 | the decimal form of any 64-bit value parses back to it |
| Config.MaskSecret | internal/config/config.go:155-166 | the masked value keeps the length; it equals util.MaskSecret (MaskCopiesAgree) |
| Config.MaskCopiesAgree | internal/config/config.go:155-166 | maskSecret equals util.MaskSecret on every input |
| Config.SafeLogValues | internal/config/config.go:133-153 | the Gemini key is logged only masked |
| Config.SafeLogHidesKey | internal/config/config.go:138 | two keys that agree on length and first 4 chars give the same logged view |
| Logging.ParseLevel | internal/logging/logger.go:21-36 | Debug iff "trace"/"debug", Warn iff "warn"/"warning", Error iff "error", after lower-casing; all else Info |
| Logging.ParseLevelIgnoresCase | internal/logging/logger.go:22 | a name and its lower-case form give the same level |
| Logging.ParseLevelCaseInsensitive | internal/logging/logger.go:22 | names equal up to case give the same level |
| Logging.UpperCaseWarning | internal/logging/logger.go:29-30 | "WARNING" is Warn |
| OpenRouterClient.FreeModels | internal/client/openrouter/client.go:85-90 | the kept models are free, come from the catalogue and are no more than it |
| OpenRouterClient.FilterFreeModels | internal/client/openrouter/client.go:85-90 | the loop appends exactly the free models, in order |
| OpenRouterClient.FreeModelsAppend | internal/client/openrouter/client.go:86-90 | filtering a concatenation filters each part, keeping catalogue order |
| OpenRouterClient.FreeModelsMembership | internal/client/openrouter/client.go:85-90 | a model is kept iff it is in the catalogue and free |
| OpenRouterClient.FreeModelsIdempotent | internal/client/openrouter/client.go:85-90 | filtering twice is filtering once |
| OpenRouterClient.IsFreeModel | internal/client/openrouter/client.go:99-105 | a free model whose id does not end in ":free" has both prices exactly "0" |
| OpenRouterClient.FreeSuffixWins | internal/client/openrouter/client.go:100-102 | an id ending in ":free" is free whatever its prices |
| OpenRouterClient.PriceIsText | internal/client/openrouter/client.go:100-104 | "0.0" is not "0", and ":free" elsewhere in the id does not count |
| OpenRouterClient.FetchOutcome | internal/client/openrouter/client.go:67-93 | a transport failure or a non-2xx status is an error; a 2xx response gives exactly the free models of the catalogue, in catalogue order |
| OpenRouterClient.GetFreeModels | internal/client/openrouter/client.go:67-93 | returns the fetch outcome through the filter loop |
| Evaluator.CutAt | internal/service/modelselection/evaluator.go:225-230 | the text before the first occurrence of the character (which follows it), or all of it when the character is absent; the result never holds the character |
| Evaluator.ExtractId | internal/service/modelselection/evaluator.go:221-231 | the trimmed reply cut at its first newline and first space, trimmed again; what it yields is stated by ExtractIdFirstWord, ExtractIdShape, ExtractIdIdempotent and IdExtractsItself |
| Evaluator.ExtractIdFirstWord | internal/service/modelselection/evaluator.go:221-231 | a reply that starts with an id followed by a newline or a space gives that id alone |
| Evaluator.ExtractIdShape | internal/service/modelselection/evaluator.go:221-231 | the id has no newline or space, no whitespace at either end, and is a piece of the reply |
| Evaluator.ExtractIdIdempotent | internal/service/modelselection/evaluator.go:221-231 | extracting from an extracted id changes nothing |
| Evaluator.IdExtractsItself | internal/service/modelselection/evaluator.go:221-231 | text already shaped like an id is left unchanged |
| Evaluator.CallGemini | internal/service/modelselection/evaluator.go:203-237 | a transport failure is a request error; a non-2xx status is an API error carrying the error body's code and message, or the status and raw body when it has no message; a 2xx response with a part gives that part's extracted id; no candidate or part is "no response" |
| Evaluator.Suggestions | internal/service/modelselection/evaluator.go:101-106 | the similar ids, in candidate order |
| Evaluator.MatchId | internal/service/modelselection/evaluator.go:92-122 | an exact match, else the first similar id, else an error naming the id; the result is a candidate id |
| Evaluator.BestMatch | internal/service/modelselection/evaluator.go:63-123 | an empty candidate list is "no models"; a failed call is "evaluation failed" with its cause; otherwise the result is the matching of the trimmed id against the candidate ids |
| Evaluator.SelectBestModel | internal/service/modelselection/evaluator.go:63-123 | the method returns BestMatch |
| Evaluator.MatchCandidates | internal/service/modelselection/evaluator.go:92-122 | the two loops return MatchId |
| Evaluator.SelectedIsExtracted | internal/service/modelselection/evaluator.go:92 | trimming the extracted id again changes nothing |
| Evaluator.ExactMatchWins | internal/service/modelselection/evaluator.go:93-101 | an exact match wins over an earlier substring match |
| Evaluator.SuggestionsFirst | internal/service/modelselection/evaluator.go:101-112 | the first suggestion is the first similar id |
| Evaluator.SuggestionsEmpty | internal/service/modelselection/evaluator.go:101-106 | with no similar id there are no suggestions |
| Evaluator.FirstSimilarChosen | internal/service/modelselection/evaluator.go:101-112 | without an exact match the first similar candidate is chosen |
| Evaluator.NothingSimilarFails | internal/service/modelselection/evaluator.go:115-122 | no exact or similar id gives NotFound with the id |
| Evaluator.EmptyIdTakesFirst | internal/service/modelselection/evaluator.go:103-112 | an empty id selects the first candidate (when no id is empty) |
| Evaluator.BlankReplyTakesFirst | internal/service/modelselection/evaluator.go:221-231 | a blank reply selects the first candidate |
| Evaluator.BlankReplyExtractsNothing | internal/service/modelselection/evaluator.go:221-231 | a blank reply extracts the empty id |
| Selector.ScheduleHourOrDefault | internal/service/modelselection/selector.go:54-56 | an hour outside 0..23 becomes 3, one inside is kept |
| Selector.EvaluatorModelOrDefault | internal/service/modelselection/evaluator.go:36-38 | an empty evaluator model becomes "gemini-3-flash-preview" |
| Selector.CheckConfig | internal/service/modelselection/selector.go:42-56 | OpenRouter key, then evaluator key, then fallback model are required in that order, and the first missing one is the error |
| Selector.EvalOutcome | internal/service/modelselection/selector.go:124-141 | a failed fetch is a fetch error, an empty free list is "no free models", otherwise the outcome of picking among the free models (its error wrapped); a success is the id of a free model |
| Selector.EvalSelectsFreeModel | internal/service/modelselection/selector.go:127-141 | the selected id is that of a free model in the catalogue |
| Selector.Notifications | internal/service/modelselection/selector.go:152-159 | one call per callback, in registration order, with the new model |
| Selector.NotifyAll | internal/service/modelselection/selector.go:154-156 | the loop makes exactly those calls |
| Selector.Due | internal/service/modelselection/selector.go:175-181 | due only at the scheduled hour and only 23 hours or more after the recorded time; never having evaluated is due at that hour |
| Selector.NotDueWithin23Hours | internal/service/modelselection/selector.go:181 | no evaluation within 23 hours of the last one |
| Selector.DueNextDay | internal/service/modelselection/selector.go:175-181 | at the scheduled hour a day later the evaluation is due |
| Selector.NotDueOffHour | internal/service/modelselection/selector.go:175 | outside the scheduled hour nothing is due |
| Selector.Selector.constructor | internal/service/modelselection/selector.go:58-64 | nothing selected, never evaluated, no callbacks, defaults applied |
| Selector.Selector.CurrentModel | internal/service/modelselection/selector.go:103-114 | selected, else last known, else the fallback; never empty |
| Selector.Selector.OnModelUpdate | internal/service/modelselection/selector.go:117-121 | appends the callback and changes nothing else |
| Selector.Selector.Evaluate | internal/service/modelselection/selector.go:124-162 | success sets selected, last known and the time the evaluator finished answering, and notifies only on a change from a set model; failure changes nothing |
| Selector.Selector.Start | internal/service/modelselection/selector.go:69-94 | a failed first evaluation selects the fallback model and calls nothing; a successful one has evaluate's effect and calls; Start never fails |
| Selector.Selector.OnTick | internal/service/modelselection/selector.go:173-187 | a tick evaluates exactly when due at its own time; a success records the time the evaluation finished; the new state and calls are evaluate's on success, unchanged and none on failure or when not due |
| Selector.ScheduleStep | internal/service/modelselection/selector.go:165-191 | the run over one more tick extends the run so far by that tick's outcome: its state, its index when it evaluates, its calls |
| Selector.RanOrdered | internal/service/modelselection/selector.go:165-191 | the evaluated ticks are indices of the run, strictly increasing |
| Selector.RanAtHour | internal/service/modelselection/selector.go:175 | every evaluated tick is at the scheduled hour |
| Selector.RanIffDue | internal/service/modelselection/selector.go:173-184 | a tick evaluates iff, in the state the earlier ticks left, it is the scheduled hour and 23 hours have passed since the last success |
| Selector.SuccessRecordsTime | internal/service/modelselection/selector.go:143-147 | a due tick whose evaluation succeeds records the time that evaluation finished, not the tick's time |
| Selector.EvalTimeKept | internal/service/modelselection/selector.go:143-148 | a recorded evaluation time never drops while no later evaluation finishes before it |
| Selector.EvalTimeFromRan | internal/service/modelselection/selector.go:143-148 | the recorded time is the initial one or the finishing time of an evaluated tick's evaluation |
| Selector.EvaluationsSpaced | internal/service/modelselection/selector.go:175-181 | with ticks handled one after the other, an evaluation comes at least 23 hours after an earlier successful one finished, and so after its tick |
| Selector.SpringForwardSkipped | internal/service/modelselection/selector.go:143-181 | a same-hour tick exactly 23 hours after a successful evaluation's tick does not evaluate when that evaluation took any time |
| Selector.Selector.RunScheduler | internal/service/modelselection/selector.go:165-191 | the ticks that evaluate, the calls and the final state are those of folding one tick after another over the run; evaluated ticks are at the scheduled hour, in order |
| Selector.NewSelector | internal/service/modelselection/selector.go:42-65 | the first failing check is the error; otherwise a fresh selector with nothing selected or known, never evaluated, no callbacks, defaults applied |
| Selector.RegisterAll | internal/service/modelselection/selector.go:117-121 | registering callbacks one by one appends them in order and leaves the selection untouched |
| Selector.FallbackThenChange | internal/service/modelselection/selector.go:81-93 | after a failed start, a successful evaluation of another model calls every callback |
| ScriptTranslator.FirstFound | internal/service/translator/translator.go:242-246 | the first phrase in list order found in the text, and none before it |
| ScriptTranslator.Detected | internal/service/translator/translator.go:232-247 | a reported reason is one of the five phrases |
| ScriptTranslator.DetectScriptFailure | internal/service/translator/translator.go:232-247 | the loop reports exactly the first phrase found in the lower-cased output, or ("", false) |
| ScriptTranslator.DetectedIgnoresCase | internal/service/translator/translator.go:241 | the case of the output does not matter |
| ScriptTranslator.ShellQuote | internal/service/translator/translator.go:189-197 | '' for empty, unchanged when plain, else Go-quoted; a quoted word has a space only if the argument does |
| ScriptTranslator.BuildCommandLine | internal/service/translator/translator.go:179-187 | the appending loop gives the quoted words joined by single spaces |
| ScriptTranslator.CommandLineWords | internal/service/translator/translator.go:179-187 | without spaces in the words, splitting the line gives the quoted words back |
| ScriptTranslator.PlainCommandLine | internal/service/translator/translator.go:179-197 | with plain words, splitting the line gives the command and its arguments |
| ScriptTranslator.MaskKeyFrom | internal/service/translator/translator.go:199-210 | the scan keeps the length of the text |
| ScriptTranslator.MaskApiKeyInCommand | internal/service/translator/translator.go:202-210 | the masked command has the length of the original |
| ScriptTranslator.MaskWithoutFlag | internal/service/translator/translator.go:199-210 | text without "-k" is unchanged |
| ScriptTranslator.MaskReplacesToken | internal/service/translator/translator.go:199-210 | "-k", a space and a word: the word is replaced by its masked form |
| ScriptTranslator.PairsFlatten | internal/service/translator/translator.go:93-111 | the options read back are the options written |
| ScriptTranslator.TailFlags | internal/service/translator/translator.go:97-111 | -d, --instruction, --ratelimit and --maxbatchsize, each under its condition |
| ScriptTranslator.RankOrder | internal/service/translator/translator.go:97-111 | the optional options come in their fixed order, at most once each |
| ScriptTranslator.NumericOptionsReadBack | internal/service/translator/translator.go:105-111 | the numeric options carry the decimal form of the positive value, which parses back |
| ScriptTranslator.GeminiFlags | internal/service/translator/translator.go:93-111 | -m with the model only when set, then the tail options |
| ScriptTranslator.GeminiArgsShape | internal/service/translator/translator.go:86-111 | the seven fixed words, then exactly the chosen options |
| ScriptTranslator.AppendTailFlags | internal/service/translator/translator.go:97-111 | the conditional appends add the tail options |
| ScriptTranslator.BuildGeminiArgs | internal/service/translator/translator.go:86-111 | the appending code builds GeminiArgs |
| ScriptTranslator.MaskedKeyInLine | internal/service/translator/translator.go:199-210 | the word after "-k" is logged masked |
| ScriptTranslator.GeminiLogMasksKey | internal/service/translator/translator.go:122 | the Debug line shows the Gemini key only masked |
| ScriptTranslator.Verdict | internal/service/translator/translator.go:147-176 | setup, exit, output file, then phrase scan in that order; ok with the output path iff all pass |
| ScriptTranslator.Translate | internal/service/translator/translator.go:73-177 | an invalid message starts nothing; otherwise the Gemini invocation with the masked log line, judged by Verdict |
| LegacyTranslator.FirstNonEmptyFound | internal/translator/gemini.go:241-248 | the first non-empty phrase found, with none before it |
| LegacyTranslator.LegacyDetected | internal/translator/gemini.go:230-251 | a reported reason is one of the six phrases |
| LegacyTranslator.DetectScriptFailure | internal/translator/gemini.go:230-251 | the loop skips empty phrases and reports the first found |
| LegacyTranslator.SkipNeverFires | internal/translator/gemini.go:242-244 | on a list without empty phrases, the skip changes nothing |
| LegacyTranslator.LegacyExtendsService | internal/translator/gemini.go:231-238 | the legacy scan is the service scan, with "error:" as a last resort |
| LegacyTranslator.FirstFoundAppend | internal/translator/gemini.go:231-238 | searching a list with one more phrase at the end |
| LegacyTranslator.ErrorColonFails | internal/translator/gemini.go:237-240 | "error:" in either stream, in any case, is a failure |
| LegacyTranslator.LegacyVerdict | internal/translator/gemini.go:169-189 | exit, output file, then phrase scan; a failed exit carries the trimmed stderr |
| LegacyTranslator.Translate | internal/translator/gemini.go:73-190 | the validation error as is; otherwise the legacy output path, the Gemini arguments and the unmasked line |
| LegacyTranslator.LegacyLogShowsKey | internal/translator/gemini.go:117-124 | with plain words, the eighth word of the logged line is the key itself |
| GeminiService.EnvOr | internal/service/translator/gemini.go:31-38 | an unset or empty variable gives the default |
| GeminiService.NewGeminiTranslator | internal/service/translator/gemini.go:30-51 | script and directory from the environment or the defaults, never empty; the rest copied |
| GeminiService.Translate | internal/service/translator/gemini.go:54-104 | an invalid message is rejected first; otherwise the Gemini invocation with the masked log line |
| GeminiService.ArgsReadBack | internal/service/translator/gemini.go:65-90 | the script reads the path, output, language and key, then -m, -d and --ratelimit under their conditions |
| OpenRouterService.EffectiveRateLimit | internal/service/translator/openrouter.go:43-46 | 0 becomes 10; any other value is kept |
| OpenRouterService.RateLimitFlag | internal/service/translator/openrouter.go:43-46 | --ratelimit is "10" when unset, the value when positive, absent when negative |
| OpenRouterService.OpenRouterArgsShape | internal/service/translator/openrouter.go:97-119 | the nine fixed words, --apikey and --model always, then the tail options |
| OpenRouterService.BuildOpenRouterArgs | internal/service/translator/openrouter.go:97-119 | the appending code builds the argument vector |
| OpenRouterService.RedactKeys | internal/service/translator/openrouter.go:131 | the word after "-k" or "--apikey" is masked; all else kept |
| OpenRouterService.KeyLoggedInClear | internal/service/translator/openrouter.go:97-131 | as written (and as Translate logs it), the logged line carries the key in clear |
| OpenRouterService.KeyLoggedMasked | internal/service/translator/openrouter.go:131 | corrected, the logged line carries the masked key |
| OpenRouterService.OpenRouterTranslator.constructor | internal/service/translator/openrouter.go:32-59 | script and directory from the environment or defaults; rate limit defaulted |
| OpenRouterService.OpenRouterTranslator.UpdateModel | internal/service/translator/openrouter.go:62-71 | the model becomes the new one; nothing else can change |
| OpenRouterService.OpenRouterTranslator.GetModel | internal/service/translator/openrouter.go:74-78 | the current model |
| OpenRouterService.OpenRouterTranslator.Translate | internal/service/translator/openrouter.go:81-134 | invalid first; then one reading of the model, the key in OPENROUTER_API_KEY, and the -k-masked log line, which with plain words and no "-k" carries the key in clear as its eighth word |
| TranslatorFactory.ChooseProvider | internal/service/translator/factory.go:20-41 | OpenRouter iff its key is set; Gemini iff only its key is set; otherwise the error |
| TranslatorFactory.AutoSelectDoesNotChoose | internal/service/translator/factory.go:25-32 | the auto-select setting only changes the log, not the provider |
| TranslatorFactory.NewTranslator | internal/service/translator/factory.go:20-41 | builds the chosen variant with the language and suffix passed through |
| Worker.Grow | internal/service/worker/worker.go:67 | doubled below the cap, else 30; stays in [1, 30] |
| Worker.BackoffAfter | internal/service/worker/worker.go:19-21 | the waits after k errors lie in [1, 30] |
| Worker.GrowStep | internal/service/worker/worker.go:67 | one more error moves along 1, 2, 4, 8, 16, 30, 30, ... |
| Worker.RunFrom | internal/service/worker/worker.go:45-74 | the trace of waits and exit; at most one wait per pass |
| Worker.Run | internal/service/worker/worker.go:45-74 | the loop produces RunFrom's waits and exit; every wait lies in [1, 30] |
| Worker.NilResets | internal/service/worker/worker.go:68-71 | a nil result restarts the backoff at 1 |
| Worker.WaitsBounded | internal/service/worker/worker.go:17-67 | every wait lies in [1, 30] |
| Worker.EndsOnlyThroughContext | internal/service/worker/worker.go:48-66 | Run goes on iff no pass is a context end or cancellation |
| Worker.CanceledOnlyWhenReported | internal/service/worker/worker.go:55-57 | Run returns the cancellation error iff processNext reported it first |
| Worker.FailureStreak | internal/service/worker/worker.go:59-67 | a run of failures waits 1, 2, 4, 8, 16, then 30 s each time |
| Worker.ProcessJob | internal/service/worker/worker.go:111-129 | the callback is sent only after success, with (translated, original, video); error iff either failed |
| Worker.ProcessNext | internal/service/worker/worker.go:76-109 | error iff a non-Nil dequeue error; short, undecodable and failed jobs are dropped |

## Left out

- Redis, HTTP, subprocesses, pipes, output streaming, goroutines, timeouts and `os.Stat` are
  not modelled. Their outcomes are parameters.
- The locks of the selector and the OpenRouter translator are not modelled: access is sequential.
- Wall-clock time and the hourly ticker are given as integers.
- Selector.Selector.OnTick: the hour test (selector.go:175) and the 23-hour test
  (selector.go:181) read the clock once, at the tick's `now`; the code reads it twice, a moment
  apart. The time an evaluation records is the tick's `doneAt`, the clock after the evaluator
  has answered (selector.go:147).
- JSON decoding is a `decode` function parameter.
- The evaluation prompt template is not part of this model.
- Evaluator.BestMatch: the failure to build the prompt (evaluator.go:68-71) has no outcome of its
  own; it can only appear inside the abstract reply, and so as `EvaluationFailed`.
- The legacy worker (internal/worker/worker.go) is not modelled. Unlike the service worker, it
  pauses a fixed 1 s after an error, with no growing backoff, and treats a reply shorter than
  two elements as an error rather than dropping it.
- The two callback clients are not modelled; they post the payload and check the status.
- `Config.Load`, which reads the environment step by step, is not modelled. Only its helpers are.
- `time.ParseDuration` is not modelled.
- Strings are ASCII; Unicode case folding and trimming are not modelled.
- GoText.Quote: gives the shape of `strconv.Quote` (double quotes around escaped ASCII), not
  its full escaping of non-ASCII text.
- Log messages other than the command lines are not modelled.
- The logging of a model change in `UpdateModel` is not modelled.
- The timezone banner of `Start` is not modelled.
- ScriptTranslator.GeminiTranslator: translator.go's `NewGeminiTranslator` only copies its
  configuration, so it is this record's constructor and has no member of its own.
- Worker.Run: runs over a finite sequence of passes; the real loop runs until the context ends.
- Selector.Selector.RunScheduler: runs over a finite sequence of ticks given in advance; `Stop` and the ticker that ends and paces the real loop are not modelled.

## Findings

| source | as written | input that shows it | evidently intended | confidence | as-written member | corrected member |
|---|---|---|---|---|---|---|
| internal/service/translator/openrouter.go:131 | the Debug line is masked by `maskAPIKeyInCommand`, which only knows `-k`, while the key follows `--apikey` (line 101); the key is logged in clear | key `sk-or-v1-abcdef`, path `movie.eng.srt`, all other words plain and free of `-k`: the eighth logged word is `sk-or-v1-abcdef` | the key is logged as `sk-o` followed by stars, as for the Gemini variant | high, not executed | OpenRouterService.KeyLoggedInClear | OpenRouterService.KeyLoggedMasked |

`OpenRouterService.OpenRouterTranslator.Translate` logs the line as written, so its contract carries the
key in clear; the corrected line `OpenRouterService.LogLine` is proved separately.
