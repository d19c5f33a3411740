/** The query string `omdbRequest` builds: the fixed credential, then every
    parameter whose value is present and not blank. The URL, its encoding
    and the fetch itself are not modelled. */
module Request {
  import opened JsString

  const ApiKey := "193a5a2a"

  /** A parameter value: `undefined`, `null` or a string. */
  datatype ParamValue = Undefined | Null | Str(s: string)

  /** How a request settles: the promise rejects with an error message
      (network failure, `HTTP <status>`, a body that is not JSON), or it
      resolves to the decoded body. */
  datatype Outcome<D> = Thrown(message: string) | Delivered(data: D)

  /** An entry is sent when its value is a string that is not all white
      space (see KeptIffTrimmed for the test as the loop writes it). */
  predicate Kept(v: ParamValue) {
    v.Str? && !IsBlank(v.s)
  }

  /** The entries of a JavaScript object have distinct keys. */
  predicate UniqueKeys(params: seq<(string, ParamValue)>) {
    forall i, j :: 0 <= i < j < |params| ==> params[i].0 != params[j].0
  }

  /** A value is kept exactly when it is neither undefined nor null and its
      text is not empty once trimmed. */
  lemma KeptIffTrimmed(v: ParamValue)
    ensures Kept(v) <==> v != Undefined && v != Null && Trim(v.s) != ""
  {
    if v.Str? {
      TrimEmptyIffBlank(v.s);
    }
  }

  /** The keys of a list of entries. */
  function KeySet(params: seq<(string, ParamValue)>): set<string> {
    set i | 0 <= i < |params| :: params[i].0
  }

  /** The parameter loop of `omdbRequest`: `searchParams.set("apikey", ...)`
      followed by one `set` per kept entry, in entry order. */
  method QueryOf(params: seq<(string, ParamValue)>) returns (query: map<string, string>)
    requires UniqueKeys(params)
    ensures "apikey" in query
    ensures (forall i :: 0 <= i < |params| ==> params[i].0 == "apikey" ==> !Kept(params[i].1))
            ==> query["apikey"] == ApiKey
    ensures forall i :: 0 <= i < |params| && Kept(params[i].1) ==>
              params[i].0 in query && query[params[i].0] == params[i].1.s
    ensures forall i :: 0 <= i < |params| && params[i].0 != "apikey" ==>
              (params[i].0 in query <==> Kept(params[i].1))
    ensures query.Keys <= {"apikey"} + KeySet(params)
  {
    query := map["apikey" := ApiKey];
    var n := 0;
    ghost var overridden := false;
    while n < |params|
      invariant 0 <= n <= |params|
      invariant "apikey" in query
      invariant !overridden ==> query["apikey"] == ApiKey
      invariant overridden ==> exists i :: 0 <= i < n && params[i].0 == "apikey" && Kept(params[i].1)
      invariant forall i :: 0 <= i < n && Kept(params[i].1) ==>
                  params[i].0 in query && query[params[i].0] == params[i].1.s
      invariant forall i :: 0 <= i < |params| && params[i].0 != "apikey" ==>
                  (params[i].0 in query <==> i < n && Kept(params[i].1))
      invariant query.Keys <= {"apikey"} + KeySet(params)
    {
      var (k, v) := params[n];
      // the test written with trim in the loop; see KeptIffTrimmed
      if Kept(v) {
        query := query[k := v.s];
        overridden := overridden || k == "apikey";
      }
      n := n + 1;
    }
  }

  /** The parameters `searchMovies` passes: `s`, `type=movie`, `page`. */
  function SearchParams(query: string, page: nat): seq<(string, ParamValue)> {
    [("s", Str(query)), ("type", Str("movie")), ("page", Str(ShowNat(page)))]
  }

  /** The parameters `openDetails` passes: `i` and `plot=full`. */
  function DetailsParams(imdbId: string): seq<(string, ParamValue)> {
    [("i", Str(imdbId)), ("plot", Str("full"))]
  }


  /** A search asks for movies only, for the given page, with the credential,
      and sends the query text exactly when it is not blank. */
  method SearchQuery(text: string, page: nat) returns (query: map<string, string>)
    ensures query.Keys == {"apikey", "type", "page"} + (if IsBlank(text) then {} else {"s"})
    ensures query["apikey"] == ApiKey && query["type"] == "movie"
    ensures query["page"] == ShowNat(page)
    ensures !IsBlank(text) ==> query["s"] == text
  {
    var params := SearchParams(text, page);
    assert IsDigit(ShowNat(page)[0]);
    assert !IsSpace("movie"[0]);
    query := QueryOf(params);
    assert params[0].0 == "s" && params[1].0 == "type" && params[2].0 == "page";
    assert KeySet(params) == {"s", "type", "page"};
  }

  /** A details request carries the credential, `plot=full`, and the id
      exactly when it is not blank. */
  method DetailsQuery(imdbId: string) returns (query: map<string, string>)
    ensures query.Keys == {"apikey", "plot"} + (if IsBlank(imdbId) then {} else {"i"})
    ensures query["apikey"] == ApiKey && query["plot"] == "full"
    ensures !IsBlank(imdbId) ==> query["i"] == imdbId
  {
    var params := DetailsParams(imdbId);
    assert !IsSpace("full"[0]);
    query := QueryOf(params);
    assert params[0].0 == "i" && params[1].0 == "plot";
    assert KeySet(params) == {"i", "plot"};
  }
}
