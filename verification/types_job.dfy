/** internal/types/job.go: the job record read from the queue, its validation and the
    derivation of the translated subtitle's path (current rule: the last ".eng" marker is
    replaced). */
module JobTypes {
  import opened GoText

  datatype JobMessage = JobMessage(
    fileName: string,
    path: string,
    videoPath: string,
    overview: string,
    provider: string)

  datatype ValidationError = PathRequired

  /** Validate: the only requirement is a path that is not blank. */
  function Validate(m: JobMessage): (r: Option<ValidationError>)
    ensures r == None <==> exists i | 0 <= i < |m.path| :: !IsSpace(m.path[i])
  {
    if TrimSpace(m.path) == "" then Some(PathRequired) else None
  }

  /** The suffix with one leading dot removed. */
  function CleanSuffix(suffix: string): string {
    TrimPrefix(suffix, ".")
  }

  /** The part of the cleaned suffix before its first dot: what replaces "eng". */
  function Replacement(clean: string): (r: string)
    ensures HasPrefix(clean, r) && '.' !in r
    ensures '.' in clean ==> |r| < |clean| && clean[|r|] == '.'
    ensures '.' !in clean ==> r == clean
  {
    var dot := Index(clean, ".");
    forall i | 0 <= i < |clean| && (dot == -1 || i < dot) ensures clean[i] != '.' {
      OccursAtChar(clean, '.', i);
    }
    if dot != -1 then clean[..dot] else clean
  }

  /** idx is where the last case-insensitive ".eng" starts in the path. */
  ghost predicate LastEngAt(path: string, idx: int) {
    OccursAt(ToLower(path), ".eng", idx) && forall j :: idx < j ==> !OccursAt(ToLower(path), ".eng", j)
  }

  predicate HasEng(path: string) {
    Contains(ToLower(path), ".eng")
  }

  /** OutputPath: where the translation of m is written, for the configured suffix. The rules
      apply in this order: an empty cleaned suffix keeps the path; the last ".eng" (any case)
      has its "eng" replaced by the suffix up to its first dot; a trailing ".srt" (any case)
      is replaced by "." + suffix; "." + suffix goes before the extension; or it is appended. */
  function OutputPath(m: JobMessage, suffix: string): (r: string)
    ensures CleanSuffix(suffix) == "" ==> r == m.path
  {
    if suffix == "" then m.path
    else
      var clean := TrimPrefix(suffix, ".");
      if clean == "" then m.path
      else
        var replacement := Replacement(clean);
        var lowerPath := ToLower(m.path);
        var idx := LastIndex(lowerPath, ".eng");
        if idx != -1 then
          m.path[..idx + 1] + replacement + m.path[idx + 4..]
        else if HasSuffix(lowerPath, ".srt") then
          m.path[..|m.path| - |".srt"|] + "." + clean
        else
          var ext := Ext(m.path);
          if ext != "" then TrimSuffix(m.path, ext) + "." + clean + ext
          else m.path + "." + clean
  }

  /** The ".eng" rule: the last ".eng" (any case) keeps its dot and has "eng" replaced by the
      suffix up to its first dot, whatever else the path ends with. */
  lemma EngRule(m: JobMessage, suffix: string, idx: int)
    requires CleanSuffix(suffix) != "" && LastEngAt(m.path, idx)
    ensures OutputPath(m, suffix) == m.path[..idx + 1] + Replacement(CleanSuffix(suffix)) + m.path[idx + 4..]
  {
    var li := LastIndex(ToLower(m.path), ".eng");
    assert li == idx;
  }

  /** The ".srt" rule, reached only without a ".eng": the trailing ".srt" (any case) gives way
      to "." + the cleaned suffix. */
  lemma SrtRule(m: JobMessage, suffix: string)
    requires CleanSuffix(suffix) != "" && !HasEng(m.path) && HasSuffix(ToLower(m.path), ".srt")
    ensures OutputPath(m, suffix) == m.path[..|m.path| - 4] + "." + CleanSuffix(suffix)
  {
  }

  /** The extension rule, reached only without ".eng" and ".srt": "." + the cleaned suffix goes
      in front of the extension. */
  lemma ExtRule(m: JobMessage, suffix: string)
    requires CleanSuffix(suffix) != "" && !HasEng(m.path) && !HasSuffix(ToLower(m.path), ".srt")
    requires Ext(m.path) != ""
    ensures OutputPath(m, suffix) == m.path[..|m.path| - |Ext(m.path)|] + "." + CleanSuffix(suffix) + Ext(m.path)
  {
  }

  /** The last rule: a path with no ".eng", no ".srt" and no extension gets "." + the
      cleaned suffix appended. */
  lemma AppendRule(m: JobMessage, suffix: string)
    requires CleanSuffix(suffix) != "" && !HasEng(m.path) && !HasSuffix(ToLower(m.path), ".srt")
    requires Ext(m.path) == ""
    ensures OutputPath(m, suffix) == m.path + "." + CleanSuffix(suffix)
  {
  }

  /** One leading dot on the suffix makes no difference: ".chs" and "chs" give the same path. */
  lemma LeadingDotIgnored(m: JobMessage, s: string)
    requires s == [] || s[0] != '.'
    ensures OutputPath(m, "." + s) == OutputPath(m, s)
  {
    assert CleanSuffix("." + s) == s;
    assert CleanSuffix(s) == s;
  }

  /** Whatever rule applies, the output carries "." followed by the language marker. */
  lemma OutputCarriesMarker(m: JobMessage, suffix: string)
    requires CleanSuffix(suffix) != ""
    ensures Contains(OutputPath(m, suffix), "." + Replacement(CleanSuffix(suffix)))
  {
    if HasEng(m.path) {
      MarkerAfterEng(m, suffix);
    } else {
      MarkerWithoutEng(m, suffix);
    }
  }

  lemma MarkerAfterEng(m: JobMessage, suffix: string)
    requires CleanSuffix(suffix) != "" && HasEng(m.path)
    ensures Contains(OutputPath(m, suffix), "." + Replacement(CleanSuffix(suffix)))
  {
    var rep := Replacement(CleanSuffix(suffix));
    var p := m.path;
    var idx := LastIndex(ToLower(p), ".eng");
    assert LastEngAt(p, idx);
    assert p[idx] == '.' by { assert ToLower(p)[idx..idx + 4][0] == ToLower(p)[idx]; }
    EngRule(m, suffix, idx);
    assert p[..idx + 1] + rep == p[..idx] + ("." + rep);
    assert OutputPath(m, suffix) == p[..idx] + ("." + rep) + p[idx + 4..];
    OccursAfterPrefix(p[..idx], "." + rep, p[idx + 4..], "." + rep);
  }

  lemma MarkerWithoutEng(m: JobMessage, suffix: string)
    requires CleanSuffix(suffix) != "" && !HasEng(m.path)
    ensures Contains(OutputPath(m, suffix), "." + Replacement(CleanSuffix(suffix)))
  {
    var p := m.path;
    var before, after: string;
    if HasSuffix(ToLower(p), ".srt") {
      SrtRule(m, suffix);
      before, after := p[..|p| - 4], [];
    } else if Ext(p) != "" {
      ExtRule(m, suffix);
      before, after := p[..|p| - |Ext(p)|], Ext(p);
    } else {
      AppendRule(m, suffix);
      before, after := p, [];
    }
    MarkerBetween(OutputPath(m, suffix), before, CleanSuffix(suffix), after);
  }

  /** "." + the cleaned suffix, placed between two pieces, carries the marker. */
  lemma MarkerBetween(out: string, before: string, clean: string, after: string)
    requires out == before + "." + clean + after
    ensures Contains(out, "." + Replacement(clean))
  {
    assert before + "." + clean + after == before + ("." + clean) + after;
    OccursAfterPrefix(before, "." + clean, after, "." + Replacement(clean));
  }

  /** A ".eng" (any case) at idx and no ".e" (any case) after it: idx is the last ".eng". */
  lemma LastEngFromChars(p: string, idx: nat)
    requires idx + 4 <= |p|
    requires LowerChar(p[idx]) == '.' && LowerChar(p[idx + 1]) == 'e'
    requires LowerChar(p[idx + 2]) == 'n' && LowerChar(p[idx + 3]) == 'g'
    requires forall j :: idx < j < |p| - 1 ==> LowerChar(p[j]) != '.' || LowerChar(p[j + 1]) != 'e'
    ensures LastEngAt(p, idx)
  {
    var lp := ToLower(p);
    assert lp[idx..idx + 4] == ".eng";
    forall j | idx < j ensures !OccursAt(lp, ".eng", j) {
      if j + 4 <= |lp| {
        assert lp[j..j + 4][0] == lp[j] && lp[j..j + 4][1] == lp[j + 1];
      }
    }
  }

  /** Where the last ".eng" stands in the two example paths. */
  lemma LastEngOf(p: string, idx: nat)
    requires (p == "movie.eng.srt" && idx == 5) || (p == "The.Engineer.srt" && idx == 3)
    ensures LastEngAt(p, idx)
  {
    LastEngFromChars(p, idx);
  }

  /** "chs" has no leading dot and no inner dot: it is its own cleaned suffix and marker. */
  lemma ChsSuffix()
    ensures CleanSuffix("chs") == "chs" && Replacement("chs") == "chs"
  {
    assert "chs"[..1][0] == 'c';
    forall i | 0 <= i < 3 ensures !OccursAt("chs", ".", i) {
      OccursAtChar("chs", '.', i);
    }
  }

  /** "movie.eng.srt" with suffix "chs" becomes "movie.chs.srt". */
  lemma EngMarkerExample(m: JobMessage)
    requires m.path == "movie.eng.srt"
    ensures OutputPath(m, "chs") == "movie.chs.srt"
  {
    var p := m.path;
    LastEngOf(p, 5);
    ChsSuffix();
    EngRule(m, "chs", 5);
    Splice(p, 5, "movie.eng.srt", "movie.chs.srt");
  }

  /** Replacing the "eng" at idx + 1 of the two example paths by "chs". */
  lemma Splice(p: string, idx: nat, input: string, out: string)
    requires p == input
    requires (input == "movie.eng.srt" && idx == 5 && out == "movie.chs.srt")
             || (input == "The.Engineer.srt" && idx == 3 && out == "The.chsineer.srt")
    ensures idx + 4 <= |p| && p[..idx + 1] + "chs" + p[idx + 4..] == out
  {
    if idx == 5 {
      assert p[..6] == "movie.";
      assert p[9..] == ".srt";
    } else {
      assert p[..4] == "The.";
      assert p[7..] == "ineer.srt";
    }
  }

  /** "movie.mp4" with suffix "chs" becomes "movie.chs.mp4". */
  lemma ExtensionExample(m: JobMessage)
    requires m.path == "movie.mp4"
    ensures OutputPath(m, "chs") == "movie.chs.mp4"
  {
    var p := m.path;
    MovieMp4Shape(p);
    ChsSuffix();
    ExtRule(m, "chs");
    assert p[..5] + ".chs" + ".mp4" == "movie.chs.mp4";
  }

  lemma MovieMp4Shape(p: string)
    requires p == "movie.mp4"
    ensures !HasEng(p) && !HasSuffix(ToLower(p), ".srt") && Ext(p) == ".mp4"
  {
    MovieMp4NoEng(p);
    var lp := ToLower(p);
    assert lp[|lp| - 4..][1] == lp[6];
    MovieMp4Ext(p);
  }

  lemma MovieMp4NoEng(p: string)
    requires p == "movie.mp4"
    ensures !HasEng(p)
  {
    var lp := ToLower(p);
    forall j ensures !OccursAt(lp, ".eng", j) {
      if 0 <= j && j + 4 <= |lp| {
        assert lp[j..j + 4][0] == lp[j] && lp[j..j + 4][1] == lp[j + 1];
      }
    }
  }

  lemma MovieMp4Ext(p: string)
    requires p == "movie.mp4"
    ensures Ext(p) == ".mp4"
  {
    assert ExtBelow(p, 6) == ".";
    assert p[5..9] == ".mp4";
    assert ExtBelow(p, 9) == ".mp4";
  }

  /** "movie.srt" with suffix ".chs" becomes "movie.chs": the trailing ".srt" is replaced,
      not kept. */
  lemma SrtExample(m: JobMessage)
    requires m.path == "movie.srt"
    ensures OutputPath(m, ".chs") == "movie.chs"
  {
    var p := m.path;
    var lp := ToLower(p);
    forall j ensures !OccursAt(lp, ".eng", j) {
      if 0 <= j && j + 4 <= |lp| {
        assert lp[j..j + 4][0] == lp[j] && lp[j..j + 4][1] == lp[j + 1];
      }
    }
    assert lp[5..] == ".srt";
    assert CleanSuffix(".chs") == "chs";
    SrtRule(m, ".chs");
    assert p[..5] + "." + "chs" == "movie.chs";
  }

  /** As written, ".eng" is matched anywhere, also inside a longer word: "The.Engineer.srt"
      becomes "The.chsineer.srt" rather than "The.Engineer.chs.srt". */
  lemma EngInsideWord(m: JobMessage)
    requires m.path == "The.Engineer.srt"
    ensures OutputPath(m, "chs") == "The.chsineer.srt"
  {
    var p := m.path;
    LastEngOf(p, 3);
    ChsSuffix();
    EngRule(m, "chs", 3);
    Splice(p, 3, "The.Engineer.srt", "The.chsineer.srt");
  }
}
