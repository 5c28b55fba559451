/** internal/service/modelselection/evaluator.go: turning the evaluator's free-text reply
    into a model id, and matching that id against the candidate models. The HTTP call to
    Gemini and the prompt built from an embedded template are replaced by the call's
    outcome. */
module Evaluator {
  import opened GoText
  import OpenRouterClient

  type Model = OpenRouterClient.Model

  /** The text before the first c, or all of s when there is none. */
  function CutAt(s: string, c: char): (r: string)
    ensures HasPrefix(s, r) && c !in r
    ensures c !in s ==> r == s
    ensures c in s ==> |r| < |s| && s[|r|] == c
  {
    var idx := Index(s, [c]);
    assert idx != -1 ==> s[idx] == c by {
      if idx != -1 { OccursAtChar(s, c, idx); }
    }
    forall j | 0 <= j < |s| && (idx == -1 || j < idx) ensures s[j] != c {
      OccursAtChar(s, c, j);
    }
    if idx != -1 then s[..idx] else s
  }

  /** The end of callGemini: the reply is trimmed, cut at its first newline, then at its
      first space, and trimmed again. */
  function ExtractId(raw: string): string
  {
    TrimSpace(CutAt(CutAt(TrimSpace(raw), '\n'), ' '))
  }

  /** A reply that starts with an id followed by a newline or a space gives the id alone:
      callGemini keeps the first word of the reply. */
  lemma ExtractIdFirstWord(w: string, rest: string)
    requires w != [] && forall i :: 0 <= i < |w| ==> !IsSpace(w[i])
    requires rest == [] || rest[0] == '\n' || rest[0] == ' '
    ensures ExtractId(w + rest) == w
  {
    TrimKeepsFirstWord(w, rest);
    assert ' ' !in w && '\n' !in w by {
      forall i | 0 <= i < |w| ensures w[i] != ' ' && w[i] != '\n' { assert !IsSpace(w[i]); }
    }
    CutFirstWord(TrimSpace(w + rest), w);
    TrimSpaceNoop(w);
  }

  /** Trimming a reply that starts with a word keeps the word and what follows it. */
  lemma TrimKeepsFirstWord(w: string, rest: string)
    requires w != [] && forall i :: 0 <= i < |w| ==> !IsSpace(w[i])
    ensures var t := TrimSpace(w + rest);
            HasPrefix(t, w) && (|t| == |w| || t[|w|] == rest[0])
  {
    var s := w + rest;
    assert s[0] == w[0];
    assert TrimLeftSpace(s) == s;
    var t := TrimRightSpace(s);
    assert TrimSpace(s) == t;
    assert s[|w| - 1] == w[|w| - 1];
    assert |t| >= |w|;
    assert t[..|w|] == s[..|w|] == w;
    assert |t| > |w| ==> t[|w|] == s[|w|] == rest[0];
  }

  /** Cutting at the first newline, then at the first space, keeps a first word that is
      followed by either. */
  lemma CutFirstWord(t: string, w: string)
    requires HasPrefix(t, w) && ' ' !in w && '\n' !in w
    requires |t| == |w| || t[|w|] == '\n' || t[|w|] == ' '
    ensures CutAt(CutAt(t, '\n'), ' ') == w
  {
    var t1 := CutAt(t, '\n');
    CutKeepsPrefix(t, w, '\n');
    if |t| > |w| && t[|w|] == '\n' {
      CutAtWord(t, w, '\n');
    } else if |t1| > |w| {
      assert t1[|w|] == t[|w|];
    }
    CutAtWord(t1, w, ' ');
  }

  /** Cutting at a character absent from a prefix keeps that prefix. */
  lemma CutKeepsPrefix(t: string, w: string, c: char)
    requires HasPrefix(t, w) && c !in w
    ensures HasPrefix(CutAt(t, c), w)
  {
  }

  /** Cutting right after a word that the character follows gives the word. */
  lemma CutAtWord(t: string, w: string, c: char)
    requires HasPrefix(t, w) && c !in w && (|t| == |w| || t[|w|] == c)
    ensures CutAt(t, c) == w
  {
    CutKeepsPrefix(t, w, c);
  }

  /** The id has no newline and no space, no whitespace at either end, and is a piece of
      the reply. */
  lemma ExtractIdShape(raw: string)
    ensures '\n' !in ExtractId(raw) && ' ' !in ExtractId(raw)
    ensures var r := ExtractId(raw); r == [] || (!IsSpace(r[0]) && !IsSpace(r[|r| - 1]))
    ensures Contains(raw, ExtractId(raw))
  {
    var trimmed := TrimSpace(raw);
    var line := CutAt(trimmed, '\n');
    var word := CutAt(line, ' ');
    var r := TrimSpace(word);
    TrimSpaceWithin(raw);
    TrimSpaceWithin(word);
    assert Contains(raw, trimmed) && HasPrefix(trimmed, line) && '\n' !in line;
    assert HasPrefix(line, word) && ' ' !in word && Contains(word, r);
    ShapeFromParts(raw, trimmed, line, word, r);
    assert ExtractId(raw) == r;
  }

  /** The steps of the extraction, each a piece of the one before. */
  lemma ShapeFromParts(raw: string, trimmed: string, line: string, word: string, r: string)
    requires Contains(raw, trimmed) && HasPrefix(trimmed, line) && '\n' !in line
    requires HasPrefix(line, word) && ' ' !in word && Contains(word, r)
    ensures '\n' !in r && ' ' !in r && Contains(raw, r)
  {
    ContainsPrefix(trimmed, line);
    ContainsPrefix(line, word);
    ContainsTrans(raw, trimmed, line);
    ContainsTrans(raw, line, word);
    ContainsTrans(raw, word, r);
    AbsentFromPiece(line, word, '\n');
    AbsentFromPiece(word, r, '\n');
    AbsentFromPiece(word, r, ' ');
  }

  lemma AbsentFromPiece(s: string, sub: string, c: char)
    requires Contains(s, sub) && c !in s
    ensures c !in sub
  {
    ContainedChars(s, sub);
  }

  /** An extracted id is its own extraction. */
  lemma ExtractIdIdempotent(raw: string)
    ensures ExtractId(ExtractId(raw)) == ExtractId(raw)
  {
    ExtractIdShape(raw);
    IdExtractsItself(ExtractId(raw));
  }

  /** Any text shaped like an id (no newline, no space, no whitespace at either end) is
      left unchanged by the extraction. */
  lemma IdExtractsItself(id: string)
    requires '\n' !in id && ' ' !in id
    requires id == [] || (!IsSpace(id[0]) && !IsSpace(id[|id| - 1]))
    ensures ExtractId(id) == id
  {
    TrimSpaceNoop(id);
    CutAtAbsent(id, '\n');
    CutAtAbsent(id, ' ');
    ExtractFixedPoint(id);
  }

  lemma CutAtAbsent(s: string, c: char)
    requires c !in s
    ensures CutAt(s, c) == s
  {
  }

  lemma ExtractFixedPoint(id: string)
    requires TrimSpace(id) == id && CutAt(id, '\n') == id && CutAt(id, ' ') == id
    ensures ExtractId(id) == id
  {
  }

  /** The outcome of the generateContent request: a transport failure, or a response with
      its status, raw body, the error object it may carry and the text parts of each
      candidate. */
  datatype GeminiResponse =
    | TransportFailure(cause: string)
    | HttpResponse(status: int, body: string, errorCode: int, errorMessage: string, candidates: seq<seq<string>>)

  datatype GeminiError = HttpRequest(cause: string) | ApiError(code: int, message: string) | NoResponse

  /** callGemini after the request: a transport failure or a status outside 200..299 is an
      error (reporting the response's own error object when it has a message, else the
      status and body); no candidate or no part is "no response"; otherwise the id
      extracted from the first part of the first candidate. */
  function CallGemini(resp: GeminiResponse): (r: Result<string, GeminiError>)
    ensures resp.TransportFailure? ==> r == Err(HttpRequest(resp.cause))
    ensures resp.HttpResponse? && !(200 <= resp.status <= 299) ==>
              r == Err(if resp.errorMessage != "" then ApiError(resp.errorCode, resp.errorMessage)
                       else ApiError(resp.status, resp.body))
    ensures resp.HttpResponse? && 200 <= resp.status <= 299 && |resp.candidates| > 0 && |resp.candidates[0]| > 0
            ==> r == Ok(ExtractId(resp.candidates[0][0]))
    ensures r.Ok? ==> resp.HttpResponse? && 200 <= resp.status <= 299
                      && |resp.candidates| > 0 && |resp.candidates[0]| > 0
                      && r.value == ExtractId(resp.candidates[0][0])
    ensures resp.HttpResponse? && 200 <= resp.status <= 299 && (|resp.candidates| == 0 || |resp.candidates[0]| == 0)
            ==> r == Err(NoResponse)
  {
    match resp
    case TransportFailure(cause) => Err(HttpRequest(cause))
    case HttpResponse(status, body, code, message, candidates) =>
      if !(200 <= status <= 299) then
        if message != "" then Err(ApiError(code, message)) else Err(ApiError(status, body))
      else if |candidates| == 0 || |candidates[0]| == 0 then Err(NoResponse)
      else Ok(ExtractId(candidates[0][0]))
  }

  datatype EvalError = NoModels | EvaluationFailed(cause: GeminiError) | NotFound(selected: string)

  function Ids(models: seq<Model>): (r: seq<string>)
    ensures |r| == |models| && forall k :: 0 <= k < |models| ==> r[k] == models[k].id
  {
    seq(|models|, k requires 0 <= k < |models| => models[k].id)
  }

  /** The substring test of the second pass, in either direction. */
  predicate Similar(id: string, selected: string) {
    Contains(id, selected) || Contains(selected, id)
  }

  /** The ids of the second pass, in candidate order. */
  function Suggestions(ids: seq<string>, selected: string): (r: seq<string>)
    ensures forall k :: 0 <= k < |r| ==> r[k] in ids && Similar(r[k], selected)
  {
    if ids == [] then []
    else
      var last := ids[|ids| - 1];
      Suggestions(ids[..|ids| - 1], selected) + (if Similar(last, selected) then [last] else [])
  }

  /** The matching of SelectBestModel once the reply has given an id: an exact match, else
      the first suggestion, else an error naming the id. */
  function MatchId(ids: seq<string>, selected: string): (r: Result<string, EvalError>)
    ensures r.Ok? ==> r.value in ids
  {
    if selected in ids then Ok(selected)
    else
      var suggestions := Suggestions(ids, selected);
      if suggestions != [] then Ok(suggestions[0]) else Err(NotFound(selected))
  }

  /** What SelectBestModel returns for these candidates and this reply. */
  function BestMatch(models: seq<Model>, reply: Result<string, GeminiError>): (r: Result<string, EvalError>)
    ensures r.Ok? ==> r.value in Ids(models)
    ensures models == [] ==> r == Err(NoModels)
    ensures models != [] && reply.Err? ==> r == Err(EvaluationFailed(reply.error))
    ensures models != [] && reply.Ok? ==> r == MatchId(Ids(models), TrimSpace(reply.value))
  {
    if models == [] then Err(NoModels)
    else if reply.Err? then Err(EvaluationFailed(reply.error))
    else MatchId(Ids(models), TrimSpace(reply.value))
  }

  /** SelectBestModel: an empty candidate list fails before any call; a failed call fails;
      otherwise the trimmed id is looked up exactly, then by substring in either direction. */
  method SelectBestModel(models: seq<Model>, reply: Result<string, GeminiError>) returns (r: Result<string, EvalError>)
    ensures r == BestMatch(models, reply)
  {
    if |models| == 0 {
      return Err(NoModels);
    }
    if reply.Err? {
      return Err(EvaluationFailed(reply.error));
    }
    var selected := TrimSpace(reply.value);
    r := MatchCandidates(models, selected);
  }

  /** The two passes over the candidates. */
  method MatchCandidates(models: seq<Model>, selected: string) returns (r: Result<string, EvalError>)
    ensures r == MatchId(Ids(models), selected)
  {
    var i := 0;
    while i < |models|
      invariant 0 <= i <= |models|
      invariant forall j :: 0 <= j < i ==> models[j].id != selected
    {
      if models[i].id == selected {
        assert Ids(models)[i] == selected;
        return Ok(selected);
      }
      i := i + 1;
    }
    assert selected !in Ids(models);
    var suggestions: seq<string> := [];
    i := 0;
    while i < |models|
      invariant 0 <= i <= |models|
      invariant suggestions == Suggestions(Ids(models)[..i], selected)
    {
      assert Ids(models)[..i + 1][..i] == Ids(models)[..i];
      if Contains(models[i].id, selected) || Contains(selected, models[i].id) {
        suggestions := suggestions + [models[i].id];
      }
      i := i + 1;
    }
    assert Ids(models)[..|models|] == Ids(models);
    if |suggestions| > 0 {
      return Ok(suggestions[0]);
    }
    return Err(NotFound(selected));
  }

  /** The id the matching sees is the id callGemini extracted: trimming it again changes
      nothing. */
  lemma SelectedIsExtracted(raw: string)
    ensures TrimSpace(ExtractId(raw)) == ExtractId(raw)
  {
    ExtractIdShape(raw);
    TrimSpaceNoop(ExtractId(raw));
  }

  /** An exact match wins, even when an earlier candidate would match by substring. */
  lemma ExactMatchWins(ids: seq<string>, selected: string)
    requires selected in ids
    ensures MatchId(ids, selected) == Ok(selected)
  {
  }

  /** No similar id at all: the suggestions are empty. */
  lemma {:induction false} SuggestionsEmpty(ids: seq<string>, selected: string)
    requires forall j :: 0 <= j < |ids| ==> !Similar(ids[j], selected)
    ensures Suggestions(ids, selected) == []
    decreases |ids|
  {
    if ids != [] {
      SuggestionsEmpty(ids[..|ids| - 1], selected);
    }
  }

  /** The first suggestion is the first similar id in candidate order. */
  lemma {:induction false} SuggestionsFirst(ids: seq<string>, selected: string, k: int)
    requires 0 <= k < |ids| && Similar(ids[k], selected)
    requires forall j :: 0 <= j < k ==> !Similar(ids[j], selected)
    ensures Suggestions(ids, selected) != [] && Suggestions(ids, selected)[0] == ids[k]
    decreases |ids|
  {
    var init := ids[..|ids| - 1];
    if k < |ids| - 1 {
      SuggestionsFirst(init, selected, k);
    } else {
      SuggestionsEmpty(init, selected);
    }
  }

  /** Without an exact match, the first id in candidate order that contains the selected id,
      or is contained in it, is chosen. */
  lemma FirstSimilarChosen(ids: seq<string>, selected: string, k: int)
    requires selected !in ids
    requires 0 <= k < |ids| && Similar(ids[k], selected)
    requires forall j :: 0 <= j < k ==> !Similar(ids[j], selected)
    ensures MatchId(ids, selected) == Ok(ids[k])
  {
    SuggestionsFirst(ids, selected, k);
  }

  /** Neither an exact nor a similar id: the matching fails, naming the id. */
  lemma NothingSimilarFails(ids: seq<string>, selected: string)
    requires forall j :: 0 <= j < |ids| ==> !Similar(ids[j], selected)
    ensures MatchId(ids, selected) == Err(NotFound(selected))
  {
    assert OccursAt(selected, selected, 0);
    assert selected !in ids by {
      forall j | 0 <= j < |ids| ensures ids[j] != selected {
        assert Similar(ids[j], ids[j]) by { assert OccursAt(ids[j], ids[j], 0); }
      }
    }
    SuggestionsEmpty(ids, selected);
  }

  /** An empty id is contained in every candidate id: the first candidate is chosen unless
      some candidate's id is itself empty. */
  lemma EmptyIdTakesFirst(ids: seq<string>)
    requires ids != []
    ensures MatchId(ids, "") == Ok(if "" in ids then "" else ids[0])
  {
    if "" !in ids {
      assert OccursAt(ids[0], "", 0);
      FirstSimilarChosen(ids, "", 0);
    }
  }

  /** A blank reply from a successful call selects the first candidate (when no id is empty). */
  lemma BlankReplyTakesFirst(models: seq<Model>, raw: string)
    requires models != [] && forall i :: 0 <= i < |raw| ==> IsSpace(raw[i])
    requires forall k :: 0 <= k < |models| ==> models[k].id != ""
    ensures BestMatch(models, Ok(ExtractId(raw))) == Ok(models[0].id)
  {
    BlankReplyExtractsNothing(raw);
    assert TrimSpace("") == "";
    EmptyIdTakesFirst(Ids(models));
  }

  lemma BlankReplyExtractsNothing(raw: string)
    requires forall i :: 0 <= i < |raw| ==> IsSpace(raw[i])
    ensures ExtractId(raw) == ""
  {
    assert TrimSpace(raw) == "";
    assert CutAt("", '\n') == "";
    assert CutAt("", ' ') == "";
  }
}
