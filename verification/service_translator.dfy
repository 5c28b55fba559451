/** internal/service/translator/translator.go: the subprocess-based translator and the helpers
    its siblings share: the argument vector handed to the translation script, the quoted
    command line written to the debug log with the -k value masked, and the scan of the
    script's output for phrases that mean it failed although it exited cleanly. Running the
    script is replaced by its outcome (a ScriptRun). */
module ScriptTranslator {
  import opened GoText
  import JobTypes
  import Mask

  // ---------------------------------------------------------------- failure phrases

  /** The phrases that betray a failed translation, in the order they are tried. */
  const FatalIndicators: seq<string> := [
    "translationimpossibleerror",
    "failed to translate",
    "failed to communicate with provider",
    "saving partial results",
    "traceback (most recent call last)"
  ]

  /** The index of the first phrase, in list order, that occurs in text. */
  function FirstFound(indicators: seq<string>, text: string): (r: Option<nat>)
    ensures r.Some? ==> r.value < |indicators| && Contains(text, indicators[r.value])
                        && forall j :: 0 <= j < r.value ==> !Contains(text, indicators[j])
    ensures r.None? ==> forall j :: 0 <= j < |indicators| ==> !Contains(text, indicators[j])
  {
    if indicators == [] then None
    else if Contains(text, indicators[0]) then Some(0)
    else
      match FirstFound(indicators[1..], text)
      case None => None
      case Some(k) => Some(k + 1)
  }

  /** What the two output streams reveal: the first fatal phrase found in their lower-cased
      concatenation, if any. */
  function Detected(stdout: string, stderr: string): (r: Option<string>)
    ensures r.Some? ==> r.value in FatalIndicators
    ensures r.Some? <==> exists k :: 0 <= k < |FatalIndicators| && Contains(ToLower(stdout + "\n" + stderr), FatalIndicators[k])
  {
    match FirstFound(FatalIndicators, ToLower(stdout + "\n" + stderr))
    case None => None
    case Some(k) => Some(FatalIndicators[k])
  }

  /** detectScriptFailure: the phrases are tried in order against the lower-cased output. */
  method DetectScriptFailure(stdout: string, stderr: string) returns (reason: string, failed: bool)
    ensures failed == Detected(stdout, stderr).Some?
    ensures failed ==> reason == Detected(stdout, stderr).value
    ensures !failed ==> reason == ""
  {
    var combined := ToLower(stdout + "\n" + stderr);
    for i := 0 to |FatalIndicators|
      invariant forall j :: 0 <= j < i ==> !Contains(combined, FatalIndicators[j])
    {
      if Contains(combined, FatalIndicators[i]) {
        return FatalIndicators[i], true;
      }
    }
    return "", false;
  }

  /** The scan ignores case: upper-case output is read exactly like its lower-case form. */
  lemma DetectedIgnoresCase(stdout: string, stderr: string)
    ensures Detected(ToLower(stdout), ToLower(stderr)) == Detected(stdout, stderr)
  {
    var lo, le := ToLower(stdout), ToLower(stderr);
    assert ToLower("\n") == "\n";
    ToLowerAppend(stdout + "\n", stderr);
    ToLowerAppend(stdout, "\n");
    assert ToLower(stdout + "\n" + stderr) == lo + "\n" + le;
    ToLowerAppend(lo + "\n", le);
    ToLowerAppend(lo, "\n");
    ToLowerIdempotent(stdout);
    ToLowerIdempotent(stderr);
    assert ToLower(lo + "\n" + le) == lo + "\n" + le;
  }

  // ---------------------------------------------------------------- command line

  /** The characters that make shellQuote fall back to Go quoting. */
  const ShellSpecial: string := " \t\n\"'\\"

  /** An argument shellQuote leaves as it is. */
  predicate Plain(arg: string) {
    arg != "" && !ContainsAny(arg, ShellSpecial)
  }

  /** shellQuote: '' for the empty argument, the argument itself when it is plain, else its
      Go-quoted form; a quoted word holds a space only when the argument does. */
  function ShellQuote(arg: string): (r: string)
    ensures r != ""
    ensures Plain(arg) ==> r == arg
    ensures ' ' in r ==> ' ' in arg
  {
    if arg == "" then "''"
    else if !ContainsAny(arg, ShellSpecial) then arg
    else Quote(arg)
  }

  function QuoteAll(words: seq<string>): (r: seq<string>)
    ensures |r| == |words| && forall k :: 0 <= k < |words| ==> r[k] == ShellQuote(words[k])
  {
    seq(|words|, k requires 0 <= k < |words| => ShellQuote(words[k]))
  }

  /** The command and its arguments, each quoted, joined by single spaces. */
  function CommandLine(command: string, args: seq<string>): string {
    JoinSpace(QuoteAll([command] + args))
  }

  /** buildCommandLine: the quoted words are collected in order and joined. */
  method BuildCommandLine(command: string, args: seq<string>) returns (line: string)
    ensures line == CommandLine(command, args)
  {
    var parts := [ShellQuote(command)];
    for i := 0 to |args|
      invariant parts == QuoteAll([command] + args[..i])
    {
      QuoteAllSnoc(command, args, i);
      parts := parts + [ShellQuote(args[i])];
    }
    assert args[..|args|] == args;
    line := JoinSpace(parts);
  }

  lemma QuoteAllSnoc(command: string, args: seq<string>, i: nat)
    requires i < |args|
    ensures QuoteAll([command] + args[..i + 1]) == QuoteAll([command] + args[..i]) + [ShellQuote(args[i])]
  {
    assert [command] + args[..i + 1] == ([command] + args[..i]) + [args[i]];
    QuoteAllAppend([command] + args[..i], [args[i]]);
  }

  /** When no word holds a space, splitting the command line at spaces gives back the quoted
      words, one per argument, in order. */
  lemma CommandLineWords(command: string, args: seq<string>)
    requires ' ' !in command && forall k :: 0 <= k < |args| ==> ' ' !in args[k]
    ensures SplitSpace(CommandLine(command, args)) == QuoteAll([command] + args)
  {
    var words := [command] + args;
    assert forall k :: 0 <= k < |words| ==> ' ' !in words[k] by {
      forall k | 0 <= k < |words| ensures ' ' !in words[k] {
        if k > 0 { assert words[k] == args[k - 1]; }
      }
    }
    SplitJoinSpace(QuoteAll(words));
  }

  /** With plain words only, the command line splits back into the command and its arguments. */
  lemma PlainCommandLine(command: string, args: seq<string>)
    requires Plain(command) && forall k :: 0 <= k < |args| ==> Plain(args[k])
    ensures SplitSpace(CommandLine(command, args)) == [command] + args
  {
    var words := [command] + args;
    forall k | 0 <= k < |words| ensures Plain(words[k]) && ' ' !in words[k] {
      if k > 0 { assert words[k] == args[k - 1]; }
      assert ' ' in ShellSpecial;
    }
    CommandLineWords(command, args);
    assert QuoteAll(words) == words;
  }

  // ---------------------------------------------------------------- masking the log line

  /** The length of the leading run of regexp whitespace. */
  function SpaceRun(s: string): (n: nat)
    ensures n <= |s| && (forall i :: 0 <= i < n ==> IsRegexSpace(s[i])) && (n == |s| || !IsRegexSpace(s[n]))
  {
    if s != [] && IsRegexSpace(s[0]) then 1 + SpaceRun(s[1..]) else 0
  }

  /** The length of the leading run of non-whitespace. */
  function WordRun(s: string): (n: nat)
    ensures n <= |s| && (forall i :: 0 <= i < n ==> !IsRegexSpace(s[i])) && (n == |s| || IsRegexSpace(s[n]))
  {
    if s != [] && !IsRegexSpace(s[0]) then 1 + WordRun(s[1..]) else 0
  }

  /** A match of (-k\s+)(\S+) starts at the head of s: "-k", at least one whitespace
      character, then a non-whitespace character. */
  predicate FlagAt(s: string) {
    |s| >= 3 && s[0] == '-' && s[1] == 'k' && IsRegexSpace(s[2]) && 2 + SpaceRun(s[2..]) < |s|
  }

  /** ReplaceAllStringFunc with the pattern (-k\s+)(\S+), scanning s from its start: matches
      are handled by MaskMatch, elsewhere the text is copied. */
  function MaskKeyFrom(s: string): (r: string)
    ensures |r| == |s|
    decreases |s|, 1
  {
    if FlagAt(s) then MaskMatch(s)
    else if s == [] then []
    else [s[0]] + MaskKeyFrom(s[1..])
  }

  /** A match at the head of s: the flag and the whitespace are kept, the (greedy) word is
      masked and scanning resumes after it. */
  function MaskMatch(s: string): (r: string)
    requires FlagAt(s)
    ensures |r| == |s|
    decreases |s|, 0
  {
    var w := 2 + SpaceRun(s[2..]);
    var e := w + WordRun(s[w..]);
    s[..w] + Mask.MaskSecret(s[w..e]) + MaskKeyFrom(s[e..])
  }

  /** maskAPIKeyInCommand: the value after each -k is masked; the length is kept. */
  function MaskApiKeyInCommand(command: string): (r: string)
    ensures |r| == |command|
  {
    MaskKeyFrom(command)
  }

  /** Text without "-k" passes through unchanged. */
  lemma MaskWithoutFlag(s: string)
    requires !Contains(s, "-k")
    ensures MaskKeyFrom(s) == s
  {
    NoFlagOfNotContains(s);
    MaskSkipsPrefix(s, "");
    assert s + "" == s;
  }

  /** "-k", one space and a word: the word is replaced by its masked form and the rest is
      scanned on. */
  lemma MaskReplacesToken(key: string, rest: string)
    requires key != [] && forall i :: 0 <= i < |key| ==> !IsRegexSpace(key[i])
    requires rest == [] || IsRegexSpace(rest[0])
    ensures MaskKeyFrom("-k " + key + rest) == "-k " + Mask.MaskSecret(key) + MaskKeyFrom(rest)
  {
    var s := "-k " + key + rest;
    TokenRuns(key, rest);
    TokenSlices(key, rest);
    assert MaskKeyFrom(s) == MaskMatch(s);
  }

  lemma TokenRuns(key: string, rest: string)
    requires key != [] && forall i :: 0 <= i < |key| ==> !IsRegexSpace(key[i])
    requires rest == [] || IsRegexSpace(rest[0])
    ensures var s := "-k " + key + rest;
            FlagAt(s) && SpaceRun(s[2..]) == 1 && WordRun(s[3..]) == |key|
  {
    var s := "-k " + key + rest;
    assert s[2..][0] == ' ' && s[2..][1] == key[0];
    assert SpaceRun(s[2..]) == 1 by { assert SpaceRun(s[2..][1..]) == 0; }
    assert s[3..] == key + rest;
    WordRunOfWord(key, rest);
  }

  lemma TokenSlices(key: string, rest: string)
    ensures var s := "-k " + key + rest;
            s[..3] == "-k " && s[3..3 + |key|] == key && s[3 + |key|..] == rest
  {
  }

  lemma {:induction false} WordRunOfWord(key: string, rest: string)
    requires forall i :: 0 <= i < |key| ==> !IsRegexSpace(key[i])
    requires rest == [] || IsRegexSpace(rest[0])
    ensures WordRun(key + rest) == |key|
    decreases |key|
  {
    if key != [] {
      assert (key + rest)[1..] == key[1..] + rest;
      WordRunOfWord(key[1..], rest);
    } else {
      assert key + rest == rest;
    }
  }

  // ---------------------------------------------------------------- arguments

  /** One option of the script's command line and its value. */
  datatype Flag = Flag(name: string, value: string)

  /** The options, each followed by its value. */
  function Flatten(flags: seq<Flag>): (r: seq<string>)
    ensures |r| == 2 * |flags|
  {
    if flags == [] then [] else [flags[0].name, flags[0].value] + Flatten(flags[1..])
  }

  /** How the script reads an option list: pairs of option and value (a last word without a
      value is not read). */
  function Pairs(args: seq<string>): seq<Flag>
  {
    if |args| < 2 then [] else [Flag(args[0], args[1])] + Pairs(args[2..])
  }

  /** Reading the pairs back gives the options written. */
  lemma {:induction false} PairsFlatten(flags: seq<Flag>)
    ensures Pairs(Flatten(flags)) == flags
  {
    if flags != [] {
      PairsFlatten(flags[1..]);
      assert Flatten(flags)[2..] == Flatten(flags[1..]);
    }
  }

  lemma {:induction false} FlattenAppend(a: seq<Flag>, b: seq<Flag>)
    ensures Flatten(a + b) == Flatten(a) + Flatten(b)
  {
    if a == [] {
      assert a + b == b;
    } else {
      assert (a + b)[1..] == a[1..] + b;
      FlattenAppend(a[1..], b);
    }
  }

  /** The value the script sees for an option: the first one given. */
  function Lookup(flags: seq<Flag>, name: string): Option<string> {
    if flags == [] then None
    else if flags[0].name == name then Some(flags[0].value)
    else Lookup(flags[1..], name)
  }

  /** The position of each option in the order the translators emit them. */
  function Rank(name: string): nat {
    if name == "-m" then 0
    else if name == "-d" then 1
    else if name == "--instruction" then 2
    else if name == "--ratelimit" then 3
    else if name == "--maxbatchsize" then 4
    else 5
  }

  function Opt(present: bool, name: string, value: string): seq<Flag> {
    if present then [Flag(name, value)] else []
  }

  /** The options after the model: -d with the trimmed overview when that is not empty,
      --instruction when set, and --ratelimit and --maxbatchsize in decimal when positive. */
  function TailFlags(overview: string, instruction: string, rateLimit: int, maxBatchSize: int): (r: seq<Flag>)
    ensures RankedWithin(r, 1, 4)
    ensures Lookup(r, "-d") == (if TrimSpace(overview) != "" then Some(TrimSpace(overview)) else None)
    ensures Lookup(r, "--instruction") == (if instruction != "" then Some(instruction) else None)
    ensures Lookup(r, "--ratelimit") == (if rateLimit > 0 then Some(Itoa(rateLimit)) else None)
    ensures Lookup(r, "--maxbatchsize") == (if maxBatchSize > 0 then Some(Itoa(maxBatchSize)) else None)
    ensures Lookup(r, "-m") == None
  {
    var d := Opt(TrimSpace(overview) != "", "-d", TrimSpace(overview));
    var ins := Opt(instruction != "", "--instruction", instruction);
    var rl := Opt(rateLimit > 0, "--ratelimit", Itoa(rateLimit));
    var mb := Opt(maxBatchSize > 0, "--maxbatchsize", Itoa(maxBatchSize));
    RankOrder(d, ins, rl, mb);
    LookupConcat4(d, ins, rl, mb, "-d");
    LookupConcat4(d, ins, rl, mb, "--instruction");
    LookupConcat4(d, ins, rl, mb, "--ratelimit");
    LookupConcat4(d, ins, rl, mb, "--maxbatchsize");
    LookupConcat4(d, ins, rl, mb, "-m");
    d + ins + rl + mb
  }

  /** Every option has a rank in [lo, hi] and ranks strictly increase along the list. */
  predicate RankedWithin(r: seq<Flag>, lo: nat, hi: nat) {
    (forall i :: 0 <= i < |r| ==> lo <= Rank(r[i].name) <= hi) &&
    (forall i, j :: 0 <= i < j < |r| ==> Rank(r[i].name) < Rank(r[j].name))
  }

  lemma RankedAppend(a: seq<Flag>, b: seq<Flag>, lo: nat, k: nat, hi: nat)
    requires lo <= k < hi
    requires RankedWithin(a, lo, k) && RankedWithin(b, k + 1, hi)
    ensures RankedWithin(a + b, lo, hi)
  {
    var r := a + b;
    forall i | 0 <= i < |r| ensures lo <= Rank(r[i].name) <= hi {
      if i < |a| { assert r[i] == a[i]; } else { assert r[i] == b[i - |a|]; }
    }
    forall i, j | 0 <= i < j < |r| ensures Rank(r[i].name) < Rank(r[j].name) {
      if j < |a| {
        assert r[i] == a[i] && r[j] == a[j];
      } else if i < |a| {
        assert r[i] == a[i] && r[j] == b[j - |a|];
      } else {
        assert r[i] == b[i - |a|] && r[j] == b[j - |a|];
      }
    }
  }

  lemma RankedSingle(r: seq<Flag>, n: nat)
    requires |r| <= 1 && (r != [] ==> Rank(r[0].name) == n)
    ensures RankedWithin(r, n, n)
  {
  }

  /** The order of the optional flags: at most one each, in rank order 1..4. */
  lemma RankOrder(d: seq<Flag>, ins: seq<Flag>, rl: seq<Flag>, mb: seq<Flag>)
    requires |d| <= 1 && |ins| <= 1 && |rl| <= 1 && |mb| <= 1
    requires d != [] ==> d[0].name == "-d"
    requires ins != [] ==> ins[0].name == "--instruction"
    requires rl != [] ==> rl[0].name == "--ratelimit"
    requires mb != [] ==> mb[0].name == "--maxbatchsize"
    ensures RankedWithin(d + ins + rl + mb, 1, 4)
  {
    RankedSingle(d, 1);
    RankedSingle(ins, 2);
    RankedSingle(rl, 3);
    RankedSingle(mb, 4);
    RankedAppend(d, ins, 1, 1, 2);
    RankedAppend(d + ins, rl, 1, 2, 3);
    RankedAppend(d + ins + rl, mb, 1, 3, 4);
  }

  /** Looking a name up in four lists of at most one option each. */
  lemma LookupConcat4(d: seq<Flag>, ins: seq<Flag>, rl: seq<Flag>, mb: seq<Flag>, name: string)
    requires |d| <= 1 && |ins| <= 1 && |rl| <= 1 && |mb| <= 1
    ensures Lookup(d + ins + rl + mb, name) ==
              if d != [] && d[0].name == name then Some(d[0].value)
              else if ins != [] && ins[0].name == name then Some(ins[0].value)
              else if rl != [] && rl[0].name == name then Some(rl[0].value)
              else if mb != [] && mb[0].name == name then Some(mb[0].value)
              else None
  {
    LookupAppend(d + ins + rl, mb, name);
    LookupAppend(d + ins, rl, name);
    LookupAppend(d, ins, name);
    LookupShort(d, name);
    LookupShort(ins, name);
    LookupShort(rl, name);
    LookupShort(mb, name);
  }

  lemma {:induction false} LookupAppend(a: seq<Flag>, b: seq<Flag>, name: string)
    ensures Lookup(a + b, name) == if Lookup(a, name).Some? then Lookup(a, name) else Lookup(b, name)
  {
    if a == [] {
      assert a + b == b;
    } else {
      assert (a + b)[1..] == a[1..] + b;
      LookupAppend(a[1..], b, name);
    }
  }

  lemma LookupShort(a: seq<Flag>, name: string)
    requires |a| <= 1
    ensures Lookup(a, name) == if a != [] && a[0].name == name then Some(a[0].value) else None
  {
    if a != [] {
      assert a[1..] == [];
    }
  }

  /** An option list of at most one option, put in front: it answers for its own name. */
  lemma PrependOpt(m: seq<Flag>, tail: seq<Flag>, name: string)
    requires |m| <= 1
    ensures Lookup(m + tail, name) == if m != [] && m[0].name == name then Some(m[0].value) else Lookup(tail, name)
  {
    LookupAppend(m, tail, name);
    LookupShort(m, name);
  }

  /** The numeric options carry the decimal form of a positive value, which the script reads
      back as that value. */
  lemma NumericOptionsReadBack(overview: string, instruction: string, rateLimit: int, maxBatchSize: int)
    requires rateLimit <= MaxInt64 && maxBatchSize <= MaxInt64
    ensures var r := TailFlags(overview, instruction, rateLimit, maxBatchSize);
            (rateLimit > 0 ==> Atoi(Lookup(r, "--ratelimit").value) == Some(rateLimit)) &&
            (maxBatchSize > 0 ==> Atoi(Lookup(r, "--maxbatchsize").value) == Some(maxBatchSize))
  {
    if rateLimit > 0 { AtoiItoa(rateLimit); }
    if maxBatchSize > 0 { AtoiItoa(maxBatchSize); }
  }

  /** The options of the Gemini script: -m with the model when one is set, then the tail. */
  function GeminiFlags(model: string, overview: string, instruction: string, rateLimit: int, maxBatchSize: int): (r: seq<Flag>)
    ensures RankedWithin(r, 0, 4)
    ensures Lookup(r, "-m") == (if model != "" then Some(model) else None)
    ensures Lookup(r, "-d") == Lookup(TailFlags(overview, instruction, rateLimit, maxBatchSize), "-d")
    ensures Lookup(r, "--instruction") == Lookup(TailFlags(overview, instruction, rateLimit, maxBatchSize), "--instruction")
    ensures Lookup(r, "--ratelimit") == Lookup(TailFlags(overview, instruction, rateLimit, maxBatchSize), "--ratelimit")
    ensures Lookup(r, "--maxbatchsize") == Lookup(TailFlags(overview, instruction, rateLimit, maxBatchSize), "--maxbatchsize")
  {
    var m := Opt(model != "", "-m", model);
    var tail := TailFlags(overview, instruction, rateLimit, maxBatchSize);
    RankedSingle(m, 0);
    RankedAppend(m, tail, 0, 0, 4);
    PrependOpt(m, tail, "-m");
    PrependOpt(m, tail, "-d");
    PrependOpt(m, tail, "--instruction");
    PrependOpt(m, tail, "--ratelimit");
    PrependOpt(m, tail, "--maxbatchsize");
    m + tail
  }

  /** The fixed head of the Gemini argument vector. */
  function BaseArgs(path: string, outputPath: string, language: string, apiKey: string): seq<string> {
    [path, "-o", outputPath, "-l", language, "-k", apiKey]
  }

  /** The argument vector of the Gemini script: input, output, language and key first, then
      the options. */
  function GeminiArgs(path: string, outputPath: string, language: string, apiKey: string, model: string,
                      overview: string, instruction: string, rateLimit: int, maxBatchSize: int): seq<string>
  {
    BaseArgs(path, outputPath, language, apiKey) + Flatten(GeminiFlags(model, overview, instruction, rateLimit, maxBatchSize))
  }

  /** The Gemini argument vector starts with the seven fixed words, and the script reads the
      rest back as exactly the options GeminiFlags chose. */
  lemma GeminiArgsShape(path: string, outputPath: string, language: string, apiKey: string, model: string,
                        overview: string, instruction: string, rateLimit: int, maxBatchSize: int)
    ensures var r := GeminiArgs(path, outputPath, language, apiKey, model, overview, instruction, rateLimit, maxBatchSize);
            |r| >= 7
            && r[..7] == [path, "-o", outputPath, "-l", language, "-k", apiKey]
            && Pairs(r[7..]) == GeminiFlags(model, overview, instruction, rateLimit, maxBatchSize)
  {
    HeadThenOptions(BaseArgs(path, outputPath, language, apiKey), GeminiFlags(model, overview, instruction, rateLimit, maxBatchSize));
  }

  /** A head of seven words followed by options: the script reads the options back. */
  lemma HeadThenOptions(head: seq<string>, flags: seq<Flag>)
    requires |head| == 7
    ensures var r := head + Flatten(flags);
            |r| >= 7 && r[..7] == head && Pairs(r[7..]) == flags
  {
    var r := head + Flatten(flags);
    assert r[..7] == head;
    assert r[7..] == Flatten(flags);
    PairsFlatten(flags);
  }

  /** One conditional append: the option and its value go on the end when present. */
  method AppendOpt(args: seq<string>, present: bool, name: string, value: string) returns (r: seq<string>)
    ensures r == args + Flatten(Opt(present, name, value))
  {
    r := args;
    if present {
      r := r + [name, value];
    }
  }

  /** The conditional appends after the model: -d, --instruction, --ratelimit, --maxbatchsize. */
  method AppendTailFlags(args: seq<string>, overview: string, instruction: string, rateLimit: int, maxBatchSize: int)
    returns (r: seq<string>)
    ensures r == args + Flatten(TailFlags(overview, instruction, rateLimit, maxBatchSize))
  {
    var ov := TrimSpace(overview);
    ghost var d := Opt(ov != "", "-d", ov);
    ghost var ins := Opt(instruction != "", "--instruction", instruction);
    ghost var rl := Opt(rateLimit > 0, "--ratelimit", Itoa(rateLimit));
    ghost var mb := Opt(maxBatchSize > 0, "--maxbatchsize", Itoa(maxBatchSize));
    ghost var fd, fi, fr, fm := Flatten(d), Flatten(ins), Flatten(rl), Flatten(mb);
    r := AppendOpt(args, ov != "", "-d", ov);
    r := AppendOpt(r, instruction != "", "--instruction", instruction);
    r := AppendOpt(r, rateLimit > 0, "--ratelimit", Itoa(rateLimit));
    r := AppendOpt(r, maxBatchSize > 0, "--maxbatchsize", Itoa(maxBatchSize));
    assert r == args + fd + fi + fr + fm;
    AppendAssoc4(args, fd, fi, fr, fm);
    TailFlagsParts(overview, instruction, rateLimit, maxBatchSize);
    Flatten4(d, ins, rl, mb);
  }

  lemma TailFlagsParts(overview: string, instruction: string, rateLimit: int, maxBatchSize: int)
    ensures TailFlags(overview, instruction, rateLimit, maxBatchSize) ==
              Opt(TrimSpace(overview) != "", "-d", TrimSpace(overview))
              + Opt(instruction != "", "--instruction", instruction)
              + Opt(rateLimit > 0, "--ratelimit", Itoa(rateLimit))
              + Opt(maxBatchSize > 0, "--maxbatchsize", Itoa(maxBatchSize))
  {
  }

  lemma AppendAssoc4(x: seq<string>, a: seq<string>, b: seq<string>, c: seq<string>, d: seq<string>)
    ensures x + a + b + c + d == x + (a + b + c + d)
  {
    assert x + a + b == x + (a + b);
    assert x + (a + b) + c == x + (a + b + c);
    assert x + (a + b + c) + d == x + (a + b + c + d);
  }

  lemma Flatten4(a: seq<Flag>, b: seq<Flag>, c: seq<Flag>, d: seq<Flag>)
    ensures Flatten(a + b + c + d) == Flatten(a) + Flatten(b) + Flatten(c) + Flatten(d)
  {
    FlattenAppend(a + b + c, d);
    FlattenAppend(a + b, c);
    FlattenAppend(a, b);
  }

  /** The argument building of Translate: the base vector, then -m when a model is set, then
      the tail options. */
  method BuildGeminiArgs(path: string, outputPath: string, language: string, apiKey: string, model: string,
                         overview: string, instruction: string, rateLimit: int, maxBatchSize: int)
    returns (args: seq<string>)
    ensures args == GeminiArgs(path, outputPath, language, apiKey, model, overview, instruction, rateLimit, maxBatchSize)
  {
    args := [path, "-o", outputPath, "-l", language, "-k", apiKey];
    args := AppendOpt(args, model != "", "-m", model);
    args := AppendTailFlags(args, overview, instruction, rateLimit, maxBatchSize);
    ghost var m := Opt(model != "", "-m", model);
    ghost var tail := TailFlags(overview, instruction, rateLimit, maxBatchSize);
    GeminiFlagsParts(model, overview, instruction, rateLimit, maxBatchSize);
    FlattenAppend(m, tail);
    AppendAssoc(BaseArgs(path, outputPath, language, apiKey), Flatten(m), Flatten(tail));
  }

  lemma AppendAssoc(x: seq<string>, a: seq<string>, b: seq<string>)
    ensures x + a + b == x + (a + b)
  {
  }

  lemma GeminiFlagsParts(model: string, overview: string, instruction: string, rateLimit: int, maxBatchSize: int)
    ensures GeminiFlags(model, overview, instruction, rateLimit, maxBatchSize)
            == Opt(model != "", "-m", model) + TailFlags(overview, instruction, rateLimit, maxBatchSize)
  {
  }

  // ---------------------------------------------------------------- the log line

  /** No "-k" starts anywhere in s, stated character by character. */
  predicate NoFlag(s: string)
    decreases |s|
  {
    s == [] || (!(|s| >= 2 && s[0] == '-' && s[1] == 'k') && NoFlag(s[1..]))
  }

  lemma {:induction false} NoFlagOfNotContains(s: string)
    requires !Contains(s, "-k")
    ensures NoFlag(s)
    decreases |s|
  {
    if s != [] {
      assert |s| >= 2 ==> !OccursAt(s, "-k", 0) && s[..2] == [s[0], s[1]];
      NotContainsTail(s, "-k");
      NoFlagOfNotContains(s[1..]);
    }
  }

  /** The scan copies a prefix without "-k" unchanged, provided it does not end a "-k" with
      what follows. */
  lemma {:induction false} MaskSkipsPrefix(pre: string, t: string)
    requires NoFlag(pre) && (t == [] || t[0] != 'k')
    ensures MaskKeyFrom(pre + t) == pre + MaskKeyFrom(t)
    decreases |pre|
  {
    if pre == [] {
      assert pre + t == t;
    } else {
      assert MaskKeyFrom(pre + t) == [pre[0]] + MaskKeyFrom(pre[1..] + t) by {
        NoFlagAtJoin(pre, t);
        MaskCopiesChar(pre + t);
        assert (pre + t)[1..] == pre[1..] + t;
      }
      assert MaskKeyFrom(pre[1..] + t) == pre[1..] + MaskKeyFrom(t) by {
        MaskSkipsPrefix(pre[1..], t);
      }
      ConsSplit(pre, MaskKeyFrom(t));
    }
  }

  /** No "-k" starts at the head of pre + t. */
  lemma NoFlagAtJoin(pre: string, t: string)
    requires pre != [] && NoFlag(pre) && (t == [] || t[0] != 'k')
    ensures !FlagAt(pre + t)
  {
    assert (pre + t)[0] == pre[0] && (|pre| >= 2 ==> (pre + t)[1] == pre[1]);
    assert |pre| == 1 && t != [] ==> (pre + t)[1] == t[0];
  }

  lemma ConsSplit(p: string, x: string)
    requires p != []
    ensures [p[0]] + (p[1..] + x) == p + x
  {
  }

  /** Where no "-k" starts, the scan copies one character and moves on. */
  lemma MaskCopiesChar(s: string)
    requires s != [] && !FlagAt(s)
    ensures MaskKeyFrom(s) == [s[0]] + MaskKeyFrom(s[1..])
  {
  }

  /** In a command line whose words before "-k" hold no "-k", the word after "-k" is logged
      masked: a key of at most four characters entirely as stars, a longer one as its first
      four characters and stars. */
  lemma MaskedKeyInLine(before: seq<string>, key: string, after: seq<string>)
    requires before != [] && !Contains(JoinSpace(before) + " ", "-k")
    requires key != [] && forall i :: 0 <= i < |key| ==> !IsRegexSpace(key[i])
    ensures var rest := if after == [] then "" else " " + JoinSpace(after);
            MaskApiKeyInCommand(JoinSpace(before + ["-k", key] + after))
              == JoinSpace(before) + " -k " + Mask.MaskSecret(key) + MaskKeyFrom(rest)
  {
    var rest := if after == [] then "" else " " + JoinSpace(after);
    var pre := JoinSpace(before) + " ";
    LineAroundKey(before, key, after);
    NoFlagOfNotContains(pre);
    MaskSkipsPrefix(pre, "-k " + key + rest);
    MaskReplacesToken(key, rest);
    Regroup(JoinSpace(before), Mask.MaskSecret(key), MaskKeyFrom(rest));
  }

  /** The joined line around the key: the words before it, "-k", the key, then the rest. */
  lemma LineAroundKey(before: seq<string>, key: string, after: seq<string>)
    requires before != []
    ensures var rest := if after == [] then "" else " " + JoinSpace(after);
            JoinSpace(before + ["-k", key] + after) == (JoinSpace(before) + " ") + ("-k " + key + rest)
  {
    var rest := if after == [] then "" else " " + JoinSpace(after);
    var tail := ["-k", key] + after;
    assert before + ["-k", key] + after == before + tail;
    JoinSpaceAppend(before, tail);
    assert JoinSpace(tail) == "-k " + key + rest by {
      if after == [] {
        assert tail[1..] == [key];
      } else {
        assert tail == ["-k"] + ([key] + after);
        JoinSpaceAppend(["-k"], [key] + after);
        JoinSpaceAppend([key], after);
      }
    }
  }

  lemma Regroup(a: string, b: string, c: string)
    ensures a + " -k " + b + c == (a + " ") + ("-k " + b + c)
  {
  }

  /** The Debug line of Translate: with a plain key and plain words before it that hold no
      "-k", the key shows only masked. The expression only acts on "-k" followed by white
      space, so this covers fewer lines than the masking handles: a "-k" not followed by
      white space before the key is excluded here although it does not stop the masking. */
  lemma GeminiLogMasksKey(command: string, path: string, outputPath: string, language: string, apiKey: string,
                          flags: seq<string>)
    requires Plain(apiKey) && forall i :: 0 <= i < |apiKey| ==> !IsRegexSpace(apiKey[i])
    requires !Contains(JoinSpace(QuoteAll([command, path, "-o", outputPath, "-l", language])) + " ", "-k")
    ensures var rest := if flags == [] then "" else " " + JoinSpace(QuoteAll(flags));
            MaskApiKeyInCommand(CommandLine(command, BaseArgs(path, outputPath, language, apiKey) + flags))
              == JoinSpace(QuoteAll([command, path, "-o", outputPath, "-l", language])) + " -k "
                 + Mask.MaskSecret(apiKey) + MaskKeyFrom(rest)
  {
    var head := [command, path, "-o", outputPath, "-l", language];
    var words := [command] + (BaseArgs(path, outputPath, language, apiKey) + flags);
    KeyAfterHead(command, path, outputPath, language, apiKey, flags);
    QuoteKeyWords(head, apiKey, flags);
    assert QuoteAll(words) == QuoteAll(head) + ["-k", apiKey] + QuoteAll(flags);
    MaskedKeyInLine(QuoteAll(head), apiKey, QuoteAll(flags));
  }

  /** The words of the command line: the head, then "-k" and the key, then the flags. */
  lemma KeyAfterHead(command: string, path: string, outputPath: string, language: string, apiKey: string,
                     flags: seq<string>)
    ensures [command] + (BaseArgs(path, outputPath, language, apiKey) + flags)
            == [command, path, "-o", outputPath, "-l", language] + ["-k", apiKey] + flags
  {
  }

  lemma QuoteAllAppend(a: seq<string>, b: seq<string>)
    ensures QuoteAll(a + b) == QuoteAll(a) + QuoteAll(b)
  {
  }

  /** Quoting "-k" and a plain key leaves both as they are. */
  lemma QuoteKeyWords(head: seq<string>, key: string, flags: seq<string>)
    requires Plain(key)
    ensures QuoteAll(head + ["-k", key] + flags) == QuoteAll(head) + ["-k", key] + QuoteAll(flags)
  {
    assert !ContainsAny("-k", ShellSpecial);
    QuoteAllAppend(head + ["-k", key], flags);
    QuoteAllAppend(head, ["-k", key]);
    assert QuoteAll(["-k", key]) == ["-k", key];
  }

  // ---------------------------------------------------------------- Translate

  /** A Gemini translator as NewGeminiTranslator builds it from its configuration; durations
      are nanoseconds. */
  datatype GeminiTranslator = GeminiTranslator(
    scriptPath: string,
    workDir: string,
    apiKey: string,
    model: string,
    instruction: string,
    maxBatchSize: int,
    targetLanguage: string,
    outputSuffix: string,
    timeout: int,
    rateLimit: int)

  /** The step at which starting the script can fail. */
  datatype SetupStage = StdoutPipe | StderrPipe | Start

  /** What running the script produced: a failure to set it up, or its exit error (None for a
      clean exit), whether the output file exists afterwards and the raw output streams. */
  datatype ScriptRun =
    | SetupFailed(stage: SetupStage, cause: string)
    | Ran(exitError: Option<string>, outputExists: bool, stdout: string, stderr: string)

  datatype TranslateError =
    | InvalidMessage(invalid: JobTypes.ValidationError)
    | SetupError(stage: SetupStage, setupCause: string)
    | ScriptFailed(exitCause: string)
    | OutputNotFound
    | ScriptReportedFailure(reason: string)

  /** The subprocess Translate starts: the script, its arguments, its directory (None: the
      worker's own), the variable added to the inherited environment, and the command line
      written to the Debug log. */
  datatype Invocation = Invocation(command: string, args: seq<string>, dir: Option<string>, env: string, logLine: string)

  /** The checks after the script has run, in order: setup, exit status, output file, then the
      phrase scan over the trimmed streams. Only a run passing all of them yields the output
      path. */
  function Verdict(run: ScriptRun, outputPath: string): (r: Result<string, TranslateError>)
    ensures r.Ok? <==> run.Ran? && run.exitError.None? && run.outputExists
                       && Detected(TrimSpace(run.stdout), TrimSpace(run.stderr)).None?
    ensures r.Ok? ==> r.value == outputPath
    ensures run.SetupFailed? ==> r == Err(SetupError(run.stage, run.cause))
    ensures run.Ran? && run.exitError.Some? ==> r == Err(ScriptFailed(run.exitError.value))
    ensures run.Ran? && run.exitError.None? && !run.outputExists ==> r == Err(OutputNotFound)
    ensures r.Err? && r.error.ScriptReportedFailure? ==> r.error.reason in FatalIndicators
  {
    match run
    case SetupFailed(stage, cause) => Err(SetupError(stage, cause))
    case Ran(exitError, outputExists, stdout, stderr) =>
      if exitError.Some? then Err(ScriptFailed(exitError.value))
      else if !outputExists then Err(OutputNotFound)
      else
        match Detected(TrimSpace(stdout), TrimSpace(stderr))
        case Some(reason) => Err(ScriptReportedFailure(reason))
        case None => Ok(outputPath)
  }

  /** Translate: an invalid message fails before anything is started; otherwise the script is
      invoked with the Gemini arguments, the key also in GEMINI_API_KEY, the masked command
      line logged, and the run judged by Verdict. */
  method Translate(t: GeminiTranslator, msg: JobTypes.JobMessage, run: ScriptRun)
    returns (inv: Option<Invocation>, r: Result<string, TranslateError>)
    ensures JobTypes.Validate(msg).Some? ==> inv.None? && r == Err(InvalidMessage(JobTypes.Validate(msg).value))
    ensures JobTypes.Validate(msg).None? ==>
              var out := JobTypes.OutputPath(msg, t.outputSuffix);
              var args := GeminiArgs(msg.path, out, t.targetLanguage, t.apiKey, t.model,
                                     msg.overview, t.instruction, t.rateLimit, t.maxBatchSize);
              inv == Some(Invocation(t.scriptPath, args, if t.workDir != "" then Some(t.workDir) else None,
                                     "GEMINI_API_KEY=" + t.apiKey, MaskApiKeyInCommand(CommandLine(t.scriptPath, args))))
              && r == Verdict(run, out)
  {
    var invalid := JobTypes.Validate(msg);
    if invalid.Some? {
      return None, Err(InvalidMessage(invalid.value));
    }
    var outputPath := JobTypes.OutputPath(msg, t.outputSuffix);
    var args := BuildGeminiArgs(msg.path, outputPath, t.targetLanguage, t.apiKey, t.model,
                                msg.overview, t.instruction, t.rateLimit, t.maxBatchSize);
    var dir := if t.workDir != "" then Some(t.workDir) else None;
    var line := BuildCommandLine(t.scriptPath, args);
    inv := Some(Invocation(t.scriptPath, args, dir, "GEMINI_API_KEY=" + t.apiKey, MaskApiKeyInCommand(line)));
    r := Verdict(run, outputPath);
  }
}
