/** The search session: the module-level `currentQuery`, `currentPage`,
    `totalResults` and `currentMovies`, with the parts of the page they
    drive (status line, grid, pager) as plain fields, and the handlers of
    the search form, the sort selector and the pager buttons.

    `searchMovies` awaits the service, so it is split into its synchronous
    start (`StartSearch`, run by the handlers) and the continuation that
    applies the reply (`CompleteSearch`). */
module Session {
  import opened Optional
  import opened JsString
  import opened Pager
  import opened Movies
  import opened Request

  /** A search response as decoded from JSON. `totalResults` is `None` when
      it is missing or empty; `search` is `None` when `Search` is not an
      array. */
  datatype SearchData = SearchData(
    response: Option<string>, error: Option<string>,
    totalResults: Option<nat>, search: Option<seq<Movie>>)

  /** The status line. `Found` stands for the "Found N results for Q."
      message, whose number formatting is locale-dependent. */
  datatype Status =
    | Initial
    | Searching
    | Found(count: nat, query: string)
    | Notice(text: string)
    | SearchFailed(message: string)

  /** The movies a reply would install, in service order. */
  function ReplyMovies(data: SearchData): seq<Movie> {
    if data.response == Some("False") then [] else data.search.GetOr([])
  }

  /** The total a reply would install. */
  function ReplyTotal(data: SearchData): nat {
    if data.response == Some("False") then 0 else data.totalResults.GetOr(0)
  }

  class SearchSession {
    /** `localeCompare(a, b) <= 0`, the title order of the page's locale. */
    const collate: (string, string) -> bool

    var query: string
    var page: int
    var total: nat
    var movies: seq<Movie>

    var sortValue: string
    var grid: seq<Card>
    var status: Status
    var pager: PagerView

    ghost predicate Valid()
      reads this
    {
      page >= 1
    }

    /** The state when the script starts; the selector's value and the
        pager's markup are whatever the page was loaded with. */
    constructor(collate: (string, string) -> bool, sortValue: string, pager: PagerView)
      ensures Valid()
      ensures this.collate == collate && this.sortValue == sortValue && this.pager == pager
      ensures query == "" && page == 1 && total == 0 && movies == []
      ensures grid == [] && status == Initial
    {
      this.collate := collate;
      this.sortValue := sortValue;
      this.pager := pager;
      query, page, total, movies := "", 1, 0, [];
      grid, status := [], Initial;
    }

    /** `setPager`. */
    method SetPager()
      modifies this`pager
      ensures pager == Pager.SetPager(page, total)
    {
      var maxPage := MaxPage(total);
      pager := PagerView(page, page <= 1, page >= maxPage);
    }

    /** `renderGrid`: one card per result, in the order given. */
    method RenderGrid(list: seq<Movie>)
      modifies this`grid
      ensures grid == Cards(list)
    {
      var fragment: seq<Card> := [];
      var i := 0;
      while i < |list|
        invariant 0 <= i <= |list|
        invariant |fragment| == i
        invariant forall j :: 0 <= j < i ==> fragment[j] == CardOf(list[j])
      {
        fragment := fragment + [CardOf(list[i])];
        i := i + 1;
      }
      grid := fragment;
      assert grid == Cards(list);
    }

    /** `sortMovies`: renders a sorted copy; the results themselves keep
        the service's order. */
    method SortMovies(value: string)
      requires Sortable(movies, value)
      modifies this`grid
      ensures grid == Cards(SortedCopy(movies, value, collate))
    {
      var copy := SortedCopy(movies, value, collate);
      RenderGrid(copy);
    }

    /** The synchronous start of `searchMovies`. */
    method StartSearch()
      modifies this`status, this`grid, this`movies
      ensures status == Searching && grid == [] && movies == []
    {
      status := Searching;
      grid := [];
      movies := [];
    }

    /** The continuation of `searchMovies(q, ...)` once the request
        settles, together with the handlers' `catch`. */
    method CompleteSearch(q: string, reply: Outcome<SearchData>)
      requires Valid()
      requires reply.Delivered? ==> Sortable(ReplyMovies(reply.data), sortValue)
      modifies this`total, this`movies, this`status, this`pager, this`grid
      ensures Valid()
      ensures reply.Thrown? ==>
        status == SearchFailed(reply.message) && unchanged(this`total, this`movies, this`pager, this`grid)
      ensures reply.Delivered? ==>
        && total == ReplyTotal(reply.data)
        && movies == ReplyMovies(reply.data)
        && pager == Pager.SetPager(page, total)
      ensures reply.Delivered? && reply.data.response == Some("False") ==>
        status == Notice(Or(reply.data.error, "No results found.")) && grid == old(grid)
      ensures reply.Delivered? && reply.data.response != Some("False") ==>
        && status == Found(total, q)
        && grid == Cards(SortedCopy(movies, sortValue, collate))
    {
      match reply
      case Thrown(message) =>
        status := SearchFailed(message);
      case Delivered(data) =>
        if data.response == Some("False") {
          ApplyNotFound(data.error);
        } else {
          ApplyResults(q, data);
        }
    }

    /** The `Response: "False"` branch of `searchMovies`. */
    method ApplyNotFound(error: Option<string>)
      requires Valid()
      modifies this`total, this`movies, this`status, this`pager
      ensures Valid()
      ensures total == 0 && movies == [] && pager == Pager.SetPager(page, 0)
      ensures status == Notice(Or(error, "No results found."))
    {
      total := 0;
      movies := [];
      SetPager();
      status := Notice(Or(error, "No results found."));
    }

    /** The success branch of `searchMovies`. */
    method ApplyResults(q: string, data: SearchData)
      requires Valid()
      requires data.response != Some("False")
      requires Sortable(data.search.GetOr([]), sortValue)
      modifies this`total, this`movies, this`status, this`pager, this`grid
      ensures Valid()
      ensures total == data.totalResults.GetOr(0) && movies == data.search.GetOr([])
      ensures pager == Pager.SetPager(page, total) && status == Found(total, q)
      ensures grid == Cards(SortedCopy(movies, sortValue, collate))
    {
      total := data.totalResults.GetOr(0);
      movies := data.search.GetOr([]);
      status := Found(total, q);
      SetPager();
      SortMovies(sortValue);
    }

    /** The search form's `submit` handler, up to the request it issues:
        blank input does nothing, anything else starts a search for the
        trimmed text at page 1. `request` holds the parameters handed to
        `omdbRequest`, and is `None` when no search starts. */
    method Submit(input: string) returns (request: Option<seq<(string, ParamValue)>>)
      requires Valid()
      modifies this
      ensures Valid()
      ensures request.Some? <==> !IsBlank(input)
      ensures request.None? ==> unchanged(this)
      ensures request.Some? ==>
        && query == Trim(input) && page == 1
        && status == Searching && grid == [] && movies == []
        && total == old(total) && pager == old(pager) && sortValue == old(sortValue)
        && request.value == SearchParams(Trim(input), 1)
    {
      var q := Trim(input);
      TrimEmptyIffBlank(input);
      if q == "" {
        return None;
      }
      query := q;
      page := 1;
      StartSearch();
      request := Some(SearchParams(query, 1));
    }

    /** The "prev" button's handler: nothing on the first page, otherwise
        the previous page is searched. */
    method OnPrev() returns (request: Option<seq<(string, ParamValue)>>)
      requires Valid()
      modifies this
      ensures Valid()
      ensures request.Some? <==> old(page) > 1
      ensures request.None? ==> unchanged(this)
      ensures request.Some? ==>
        && page == old(page) - 1 && query == old(query)
        && status == Searching && grid == [] && movies == []
        && total == old(total) && pager == old(pager) && sortValue == old(sortValue)
        && request.value == SearchParams(query, page as nat)
    {
      if page <= 1 {
        return None;
      }
      page := page - 1;
      StartSearch();
      request := Some(SearchParams(query, page as nat));
    }

    /** The "next" button's handler: it has no guard of its own; only the
        disabled button keeps it from going past the last page. */
    method OnNext() returns (request: seq<(string, ParamValue)>)
      requires Valid()
      modifies this
      ensures Valid()
      ensures page == old(page) + 1 && query == old(query)
      ensures status == Searching && grid == [] && movies == []
      ensures total == old(total) && pager == old(pager) && sortValue == old(sortValue)
      ensures request == SearchParams(query, page as nat)
    {
      page := page + 1;
      StartSearch();
      request := SearchParams(query, page as nat);
    }

    /** The sort selector's `change` handler. */
    method OnSortChange(value: string)
      requires Sortable(movies, value)
      modifies this`sortValue, this`grid
      ensures sortValue == value
      ensures grid == Cards(SortedCopy(movies, value, collate))
    {
      sortValue := value;
      SortMovies(value);
    }
  }

  /** A reply with `Response: "False"` installs no results and a single,
      unreachable next page. */
  lemma NotFoundEmpties(data: SearchData, page: int)
    requires data.response == Some("False")
    requires page >= 1
    ensures ReplyTotal(data) == 0 && ReplyMovies(data) == []
    ensures Pager.SetPager(page, ReplyTotal(data)).nextDisabled
  {
    EmptyDisablesBoth(page);
  }

  /** A session driven by the form, the pager and replies, one at a time:
      after a not-found reply nothing is shown and "next" is disabled. */
  method SubmitThenNotFound(s: SearchSession, input: string, message: string)
    requires s.Valid() && !IsBlank(input)
    modifies s
  {
    var request := s.Submit(input);
    assert request == Some(SearchParams(s.query, 1)) && s.page == 1;
    var data := SearchData(Some("False"), Some(message), None, None);
    s.CompleteSearch(s.query, Delivered(data));
    NotFoundEmpties(data, s.page);
    assert s.total == 0 && s.movies == [] && s.pager.nextDisabled && s.pager.prevDisabled;
  }
}
