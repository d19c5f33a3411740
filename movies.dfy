/** Search results as the service returns them, the poster sentinel, the
    card each result becomes in the grid, and the four client-side sort
    orders. */
module Movies {
  import opened Optional
  import opened JsString
  import opened Sorting

  /** One entry of a search response's `Search` array. */
  datatype Movie = Movie(title: string, year: string, imdbId: string, kind: string, poster: Option<string>)

  /** `safePoster`: a missing or empty url and the service's "N/A"
      sentinel mean "no poster", written as the empty string. */
  function SafePoster(url: Option<string>): (r: string)
    ensures r == "" <==> url == None || url == Some("") || url == Some("N/A")
    ensures r != "" ==> url == Some(r)
  {
    if url == None || url == Some("") || url == Some("N/A") then "" else url.value
  }

  /** Cleaning a poster url a second time changes nothing. */
  lemma SafePosterIdempotent(url: Option<string>)
    ensures SafePoster(Some(SafePoster(url))) == SafePoster(url)
  {
  }

  /** What a card of the grid shows and which title it opens. An empty
      `poster` is shown as the placeholder. */
  datatype Card = Card(imdbId: string, title: string, kind: string, year: string, poster: string)

  function CardOf(m: Movie): (c: Card)
    ensures c.imdbId == m.imdbId && c.title == m.title && c.kind == m.kind && c.year == m.year
    ensures c.poster == SafePoster(m.poster)
  {
    Card(m.imdbId, m.title, m.kind, m.year, SafePoster(m.poster))
  }

  /** The cards of a list of results, one per result, in order. */
  function Cards(list: seq<Movie>): (cards: seq<Card>)
    ensures |cards| == |list|
    ensures forall i :: 0 <= i < |list| ==> cards[i] == CardOf(list[i])
  {
    seq(|list|, i requires 0 <= i < |list| => CardOf(list[i]))
  }

  /** The values of the sort selector that reorder the results. */
  datatype SortOrder = TitleAsc | TitleDesc | YearDesc | YearAsc

  /** "az", "za", "newest" and "oldest" choose an order; any other value
      keeps the order of the service. */
  function OrderOf(value: string): (o: Option<SortOrder>)
    ensures o == Some(TitleAsc) <==> value == "az"
    ensures o == Some(TitleDesc) <==> value == "za"
    ensures o == Some(YearDesc) <==> value == "newest"
    ensures o == Some(YearAsc) <==> value == "oldest"
  {
    if value == "az" then Some(TitleAsc)
    else if value == "za" then Some(TitleDesc)
    else if value == "newest" then Some(YearDesc)
    else if value == "oldest" then Some(YearAsc)
    else None
  }

  /** `parseInt(m.Year, 10)`, for a year that starts with an integer. */
  function YearKey(m: Movie): int {
    ParseInt(m.year).GetOr(0)
  }

  predicate YearsParse(list: seq<Movie>) {
    forall i :: 0 <= i < |list| ==> ParseInt(list[i].year).Some?
  }

  /** A year without a leading integer makes the year comparators return
      `NaN`, which leaves the order to the engine; such lists are outside
      the model. */
  predicate Sortable(list: seq<Movie>, value: string) {
    OrderOf(value) == Some(YearDesc) || OrderOf(value) == Some(YearAsc) ==> YearsParse(list)
  }

  /** The comparators of `sortMovies`, as "a may come before b". The title
      comparators use `collate`, which stands for `localeCompare(a, b) <= 0`. */
  function Precedes(order: SortOrder, collate: (string, string) -> bool): (Movie, Movie) -> bool {
    match order
    case TitleAsc => (a: Movie, b: Movie) => collate(a.title, b.title)
    case TitleDesc => (a: Movie, b: Movie) => collate(b.title, a.title)
    case YearDesc => (a: Movie, b: Movie) => YearKey(b) - YearKey(a) <= 0
    case YearAsc => (a: Movie, b: Movie) => YearKey(a) - YearKey(b) <= 0
  }

  lemma PrecedesIsPreorder(order: SortOrder, collate: (string, string) -> bool)
    requires TotalPreorder(collate)
    ensures TotalPreorder(Precedes(order, collate))
  {
    var le := Precedes(order, collate);
    forall a: Movie, b: Movie ensures le(a, b) || le(b, a) {
      if order.TitleAsc? || order.TitleDesc? {
        assert collate(a.title, b.title) || collate(b.title, a.title);
      }
    }
    forall a: Movie, b: Movie, c: Movie | le(a, b) && le(b, c) ensures le(a, c) {
      if order.TitleAsc? {
        assert collate(a.title, b.title) && collate(b.title, c.title);
      } else if order.TitleDesc? {
        assert collate(c.title, b.title) && collate(b.title, a.title);
      }
    }
  }

  /** `sortMovies` on a copy of the current results: the service's order
      for an unknown selector value, otherwise a stable sort. */
  function SortedCopy(list: seq<Movie>, value: string, collate: (string, string) -> bool): (r: seq<Movie>)
    requires Sortable(list, value)
    ensures multiset(r) == multiset(list)
    ensures OrderOf(value) == None ==> r == list
  {
    match OrderOf(value)
    case None => list
    case Some(order) => InsertionSort(list, Precedes(order, collate))
  }

  /** Each order sorts the copy the way its name says: by title with
      `collate` ascending or descending, by leading year newest or oldest
      first. */
  lemma SortedCopyOrdered(list: seq<Movie>, value: string, collate: (string, string) -> bool)
    requires Sortable(list, value)
    requires TotalPreorder(collate)
    ensures var r := SortedCopy(list, value, collate);
      && (value == "az" ==> forall i, j :: 0 <= i < j < |r| ==> collate(r[i].title, r[j].title))
      && (value == "za" ==> forall i, j :: 0 <= i < j < |r| ==> collate(r[j].title, r[i].title))
      && (value == "newest" ==> forall i, j :: 0 <= i < j < |r| ==> YearKey(r[i]) >= YearKey(r[j]))
      && (value == "oldest" ==> forall i, j :: 0 <= i < j < |r| ==> YearKey(r[i]) <= YearKey(r[j]))
  {
    var r := SortedCopy(list, value, collate);
    if OrderOf(value).Some? {
      var order := OrderOf(value).value;
      PrecedesIsPreorder(order, collate);
      SortSorted(list, Precedes(order, collate));
      assert Sorted(r, Precedes(order, collate));
    }
  }

  /** Movies that tie under the chosen order (same title for `collate`, same
      leading year) keep the order the service gave them. */
  lemma SortedCopyStable(list: seq<Movie>, value: string, collate: (string, string) -> bool, m: Movie)
    requires Sortable(list, value)
    requires TotalPreorder(collate)
    requires OrderOf(value).Some?
    ensures var le := Precedes(OrderOf(value).value, collate);
      TiesWith(SortedCopy(list, value, collate), le, m) == TiesWith(list, le, m)
  {
    var order := OrderOf(value).value;
    PrecedesIsPreorder(order, collate);
    SortStable(list, Precedes(order, collate), m);
  }

  /** Choosing the same order twice gives the same grid as choosing it once. */
  lemma SortedCopyIdempotent(list: seq<Movie>, value: string, collate: (string, string) -> bool)
    requires Sortable(list, value)
    requires TotalPreorder(collate)
    ensures Sortable(SortedCopy(list, value, collate), value)
    ensures SortedCopy(SortedCopy(list, value, collate), value, collate) == SortedCopy(list, value, collate)
  {
    var r := SortedCopy(list, value, collate);
    if OrderOf(value).Some? {
      var order := OrderOf(value).value;
      PrecedesIsPreorder(order, collate);
      SortIdempotent(list, Precedes(order, collate));
      if order == YearDesc || order == YearAsc {
        forall i | 0 <= i < |r| ensures ParseInt(r[i].year).Some? {
          assert r[i] in multiset(list);
          var j :| 0 <= j < |list| && list[j] == r[i];
        }
      }
    }
  }

  /** Two results with the same leading year keep their service order under
      "newest" and under "oldest". */
  lemma EqualYearsKeepOrder(list: seq<Movie>, value: string, collate: (string, string) -> bool, m: Movie)
    requires Sortable(list, value)
    requires value == "newest" || value == "oldest"
    ensures var r := SortedCopy(list, value, collate);
      Filter(r, YearKey(m)) == Filter(list, YearKey(m))
  {
    var order := OrderOf(value).value;
    var le := Precedes(order, collate);
    assert Transitive(le);
    SortStable(list, le, m);
    TiesAreSameYear(SortedCopy(list, value, collate), order, collate, m);
    TiesAreSameYear(list, order, collate, m);
  }

  /** The results whose leading year is `year`, in their order. */
  function Filter(list: seq<Movie>, year: int): seq<Movie> {
    if list == [] then []
    else (if YearKey(list[0]) == year then [list[0]] else []) + Filter(list[1..], year)
  }

  lemma {:induction false} TiesAreSameYear(list: seq<Movie>, order: SortOrder, collate: (string, string) -> bool, m: Movie)
    requires order == YearDesc || order == YearAsc
    ensures TiesWith(list, Precedes(order, collate), m) == Filter(list, YearKey(m))
  {
    if list != [] {
      TiesAreSameYear(list[1..], order, collate, m);
    }
  }
}
