/** internal/logging/logger.go: the mapping from the configured level name to a log level. */
module Logging {
  import opened GoText

  datatype Level = Debug | Info | Warn | Error

  /** parseLevel: the lower-cased name picks the level; "trace" and "debug" mean Debug,
      "warn" and "warning" mean Warn, "error" means Error, and every other name (also
      "info") means Info. */
  function ParseLevel(level: string): (r: Level)
    ensures r == Debug <==> ToLower(level) == "trace" || ToLower(level) == "debug"
    ensures r == Warn <==> ToLower(level) == "warn" || ToLower(level) == "warning"
    ensures r == Error <==> ToLower(level) == "error"
  {
    match ToLower(level)
    case "trace" => Debug
    case "debug" => Debug
    case "info" => Info
    case "warn" => Warn
    case "warning" => Warn
    case "error" => Error
    case _ => Info
  }

  /** The case of the name does not matter: a name and its lower-case form give the same level. */
  lemma ParseLevelIgnoresCase(level: string)
    ensures ParseLevel(ToLower(level)) == ParseLevel(level)
  {
    ToLowerIdempotent(level);
  }

  /** Names that differ only in case give the same level. */
  lemma ParseLevelCaseInsensitive(a: string, b: string)
    requires |a| == |b| && forall i :: 0 <= i < |a| ==> LowerChar(a[i]) == LowerChar(b[i])
    ensures ParseLevel(a) == ParseLevel(b)
  {
    assert ToLower(a) == ToLower(b);
  }

  /** "WARNING" in capitals is the Warn level. */
  lemma UpperCaseWarning(level: string)
    requires level == "WARNING"
    ensures ParseLevel(level) == Warn
  {
    assert ToLower(level) == "warning";
  }
}
