/** internal/job/message.go: the legacy job record, used by the legacy translator. Its
    output path strips a trailing ".eng.srt" or ".srt" instead of replacing the ".eng" marker. */
module LegacyJob {
  import opened GoText
  import JobTypes

  datatype Message = Message(
    fileName: string,
    path: string,
    videoPath: string,
    overview: string,
    provider: string)

  datatype ValidationError = PathRequired

  /** Validate: the only requirement is a path that is not blank. */
  function Validate(m: Message): (r: Option<ValidationError>)
    ensures r == None <==> exists i | 0 <= i < |m.path| :: !IsSpace(m.path[i])
  {
    if TrimSpace(m.path) == "" then Some(PathRequired) else None
  }

  /** OutputPath: an empty cleaned suffix keeps the path; otherwise a trailing ".eng.srt",
      else a trailing ".srt" (any case) is cut off and "." + suffix appended; otherwise
      "." + suffix goes before the extension, or is appended when there is none. */
  function OutputPath(m: Message, suffix: string): (r: string)
    ensures TrimPrefix(suffix, ".") == "" ==> r == m.path
  {
    if suffix == "" then m.path
    else
      var clean := TrimPrefix(suffix, ".");
      if clean == "" then m.path
      else
        var lowerPath := ToLower(m.path);
        if HasSuffix(lowerPath, ".eng.srt") then
          m.path[..|m.path| - |".eng.srt"|] + "." + clean
        else if HasSuffix(lowerPath, ".srt") then
          m.path[..|m.path| - |".srt"|] + "." + clean
        else
          var ext := Ext(m.path);
          if ext != "" then TrimSuffix(m.path, ext) + "." + clean + ext
          else m.path + "." + clean
  }

  lemma EngSrtEndsInSrt(s: string)
    ensures HasSuffix(s, ".eng.srt") ==> HasSuffix(s, ".srt")
  {
    if HasSuffix(s, ".eng.srt") {
      assert s[|s| - 4..] == s[|s| - 8..][4..];
    }
  }

  /** A trailing ".eng.srt" (any case) is removed as a whole, so the ".srt" rule never sees it. */
  lemma EngSrtRule(m: Message, suffix: string)
    requires TrimPrefix(suffix, ".") != "" && HasSuffix(ToLower(m.path), ".eng.srt")
    ensures OutputPath(m, suffix) == m.path[..|m.path| - 8] + "." + TrimPrefix(suffix, ".")
  {
  }

  /** Without ".eng.srt", a trailing ".srt" (any case) is replaced by "." + the cleaned suffix. */
  lemma SrtRule(m: Message, suffix: string)
    requires TrimPrefix(suffix, ".") != ""
    requires !HasSuffix(ToLower(m.path), ".eng.srt") && HasSuffix(ToLower(m.path), ".srt")
    ensures OutputPath(m, suffix) == m.path[..|m.path| - 4] + "." + TrimPrefix(suffix, ".")
  {
  }

  /** Without ".srt", "." + the cleaned suffix goes in front of the extension. */
  lemma ExtRule(m: Message, suffix: string)
    requires TrimPrefix(suffix, ".") != "" && !HasSuffix(ToLower(m.path), ".srt")
    requires Ext(m.path) != ""
    ensures OutputPath(m, suffix) == m.path[..|m.path| - |Ext(m.path)|] + "." + TrimPrefix(suffix, ".") + Ext(m.path)
  {
    EngSrtEndsInSrt(ToLower(m.path));
  }

  /** A path with no ".srt" ending and no extension gets "." + the cleaned suffix appended. */
  lemma AppendRule(m: Message, suffix: string)
    requires TrimPrefix(suffix, ".") != "" && !HasSuffix(ToLower(m.path), ".srt")
    requires Ext(m.path) == ""
    ensures OutputPath(m, suffix) == m.path + "." + TrimPrefix(suffix, ".")
  {
    EngSrtEndsInSrt(ToLower(m.path));
  }

  /** "movie.eng.srt" with suffix "chs" becomes "movie.chs": the ".srt" goes too. */
  lemma EngSrtExample(m: Message)
    requires m.path == "movie.eng.srt"
    ensures OutputPath(m, "chs") == "movie.chs"
  {
    var lp := ToLower(m.path);
    assert lp[5..] == ".eng.srt" by {
      assert lp[5] == '.' && lp[6] == 'e' && lp[7] == 'n' && lp[8] == 'g';
      assert lp[9] == '.' && lp[10] == 's' && lp[11] == 'r' && lp[12] == 't';
    }
    assert HasSuffix(lp, ".eng.srt");
    assert TrimPrefix("chs", ".") == "chs";
    EngSrtRule(m, "chs");
    assert m.path[..5] == "movie";
  }

  /** For a path ending in ".eng.srt" and a suffix without an inner dot, the current rule gives
      the legacy result with the ".srt" extension kept. */
  lemma CurrentKeepsSrt(m: Message, suffix: string)
    requires TrimPrefix(suffix, ".") != "" && '.' !in TrimPrefix(suffix, ".")
    requires HasSuffix(ToLower(m.path), ".eng.srt")
    ensures JobTypes.OutputPath(JobTypes.JobMessage(m.fileName, m.path, m.videoPath, m.overview, m.provider), suffix)
            == OutputPath(m, suffix) + m.path[|m.path| - 4..]
  {
    var p := m.path;
    var idx := |p| - 8;
    EngSrtIsLastEng(p);
    ReplacementWithoutDot(TrimPrefix(suffix, "."));
    JobTypes.EngRule(JobTypes.JobMessage(m.fileName, p, m.videoPath, m.overview, m.provider), suffix, idx);
    EngSrtRule(m, suffix);
    assert p[..idx + 1] == p[..idx] + ".";
  }

  /** A trailing ".eng.srt" holds the last ".eng" of the path. */
  lemma EngSrtIsLastEng(p: string)
    requires HasSuffix(ToLower(p), ".eng.srt")
    ensures JobTypes.LastEngAt(p, |p| - 8) && p[|p| - 8] == '.'
  {
    var lp := ToLower(p);
    var idx := |p| - 8;
    assert lp[idx..] == ".eng.srt";
    assert OccursAt(lp, ".eng", idx) by { assert lp[idx..idx + 4] == lp[idx..][..4]; }
    forall j | idx < j ensures !OccursAt(lp, ".eng", j) {
      if j + 4 <= |lp| {
        assert lp[j..j + 4][0] == lp[idx..][j - idx];
        assert lp[j..j + 4][1] == lp[idx..][j - idx + 1];
      }
    }
    assert p[idx] == '.' by { assert lp[idx] == lp[idx..][0]; }
  }

  /** A cleaned suffix without a dot is its own marker. */
  lemma ReplacementWithoutDot(clean: string)
    requires '.' !in clean
    ensures JobTypes.Replacement(clean) == clean
  {
    var dot := Index(clean, ".");
    if dot != -1 {
      OccursAtChar(clean, '.', dot);
    }
  }
}
