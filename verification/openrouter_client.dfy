/** internal/client/openrouter/client.go: the model catalogue entry, the rule that decides
    which models are free, and the filtering of the catalogue down to the free models. The
    HTTP request itself is replaced by its outcome. */
module OpenRouterClient {
  import opened GoText

  datatype Pricing = Pricing(prompt: string, completion: string)

  datatype Model = Model(id: string, name: string, contextLen: int, description: string, pricing: Pricing)

  /** isFreeModel: an id ending in ":free", or both prices written exactly "0". */
  predicate IsFreeModel(m: Model)
    ensures IsFreeModel(m) && !HasSuffix(m.id, ":free") ==> m.pricing.prompt == "0" && m.pricing.completion == "0"
  {
    HasSuffix(m.id, ":free") || (m.pricing.prompt == "0" && m.pricing.completion == "0")
  }

  /** The free models of a catalogue, in catalogue order. */
  function FreeModels(data: seq<Model>): (r: seq<Model>)
    ensures |r| <= |data|
    ensures forall k :: 0 <= k < |r| ==> IsFreeModel(r[k])
  {
    if data == [] then []
    else
      var last := data[|data| - 1];
      FreeModels(data[..|data| - 1]) + (if IsFreeModel(last) then [last] else [])
  }

  /** The filter loop of GetFreeModels: each free model is appended, in order. */
  method FilterFreeModels(data: seq<Model>) returns (free: seq<Model>)
    ensures free == FreeModels(data)
  {
    free := [];
    var i := 0;
    while i < |data|
      invariant 0 <= i <= |data|
      invariant free == FreeModels(data[..i])
    {
      assert data[..i + 1][..i] == data[..i];
      if IsFreeModel(data[i]) {
        free := free + [data[i]];
      }
      i := i + 1;
    }
    assert data[..|data|] == data;
  }

  /** Filtering a concatenation filters each part: the relative order of the free models
      is the catalogue's. */
  lemma {:induction false} FreeModelsAppend(a: seq<Model>, b: seq<Model>)
    ensures FreeModels(a + b) == FreeModels(a) + FreeModels(b)
    decreases |b|
  {
    if b == [] {
      assert a + b == a;
    } else {
      var last := b[|b| - 1];
      assert (a + b)[..|a + b| - 1] == a + b[..|b| - 1];
      FreeModelsAppend(a, b[..|b| - 1]);
    }
  }

  /** A model is kept exactly when it is in the catalogue and free. */
  lemma {:induction false} FreeModelsMembership(data: seq<Model>, m: Model)
    ensures m in FreeModels(data) <==> m in data && IsFreeModel(m)
    decreases |data|
  {
    if data != [] {
      var init := data[..|data| - 1];
      FreeModelsMembership(init, m);
      assert data == init + [data[|data| - 1]];
    }
  }

  /** Every model of a catalogue of free models is kept, so filtering twice is filtering once. */
  lemma {:induction false} FreeModelsIdempotent(data: seq<Model>)
    ensures FreeModels(FreeModels(data)) == FreeModels(data)
    decreases |data|
  {
    if data != [] {
      var init := data[..|data| - 1];
      var last := data[|data| - 1];
      FreeModelsIdempotent(init);
      FreeModelsAppend(FreeModels(init), if IsFreeModel(last) then [last] else []);
      if IsFreeModel(last) {
        assert [last][..0] == [];
      }
    }
  }

  /** An id ending in ":free" is free whatever its prices say. */
  lemma FreeSuffixWins(m: Model)
    requires HasSuffix(m.id, ":free")
    ensures IsFreeModel(m)
  {
  }

  /** Prices are compared as text: "0.0" is not "0", so without the suffix such a model is
      not free; nor is ":free" anywhere but at the end of the id enough. */
  lemma PriceIsText(m: Model)
    requires m.id == "vendor/model:free-beta" && m.pricing == Pricing("0.0", "0")
    ensures !IsFreeModel(m)
  {
    assert m.id[|m.id| - 5..] == "-beta";
  }

  /** The outcome of the catalogue request. */
  datatype Response =
    | TransportFailure(cause: string)
    | HttpResponse(status: int, body: string, data: seq<Model>)

  datatype FetchError = FetchFailed(cause: string) | ApiError(status: int, body: string)

  /** What GetFreeModels returns for the request's outcome: a transport failure or a status
      outside 200..299 is an error; otherwise the free models of the catalogue. */
  function FetchOutcome(resp: Response): (r: Result<seq<Model>, FetchError>)
    ensures resp.TransportFailure? ==> r == Err(FetchFailed(resp.cause))
    ensures resp.HttpResponse? && !(200 <= resp.status <= 299) ==> r == Err(ApiError(resp.status, resp.body))
    ensures r.Ok? ==> resp.HttpResponse? && forall m :: m in r.value <==> m in resp.data && IsFreeModel(m)
    ensures resp.HttpResponse? && 200 <= resp.status <= 299 ==> r == Ok(FreeModels(resp.data))
  {
    match resp
    case TransportFailure(cause) => Err(FetchFailed(cause))
    case HttpResponse(status, body, data) =>
      if !(200 <= status <= 299) then Err(ApiError(status, body))
      else
        forall m ensures m in FreeModels(data) <==> m in data && IsFreeModel(m) {
          FreeModelsMembership(data, m);
        }
        Ok(FreeModels(data))
  }

  /** GetFreeModels over the request's outcome. */
  method GetFreeModels(resp: Response) returns (r: Result<seq<Model>, FetchError>)
    ensures r == FetchOutcome(resp)
  {
    if resp.TransportFailure? {
      return Err(FetchFailed(resp.cause));
    }
    if !(200 <= resp.status <= 299) {
      return Err(ApiError(resp.status, resp.body));
    }
    var free := FilterFreeModels(resp.data);
    return Ok(free);
  }
}
