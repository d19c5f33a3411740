/** The details view: what `openDetails` shows for a title, with every
    optional field of the service's record replaced by its sentinel when it
    is missing or empty. */
module Details {
  import opened Optional
  import opened JsString
  import opened Movies

  datatype Rating = Rating(source: string, value: string)

  /** A details response as decoded from JSON. `Title` and `Year` are shown
      as they come; every other field may be missing (`None`). `ratings` is
      `None` when `Ratings` is not an array. */
  datatype DetailsData = DetailsData(
    response: Option<string>, error: Option<string>,
    title: string, year: string,
    rated: Option<string>, runtime: Option<string>, genre: Option<string>,
    plot: Option<string>, director: Option<string>, actors: Option<string>,
    released: Option<string>, awards: Option<string>, imdbRating: Option<string>,
    imdbId: Option<string>, poster: Option<string>,
    ratings: Option<seq<Rating>>)

  /** The values the details view renders. An empty `poster` is shown as the
      placeholder. */
  datatype DetailsView = DetailsView(
    poster: string, title: string, year: string,
    rated: string, runtime: string, genre: string, imdbRating: string,
    topRating: string, plot: string,
    director: string, actors: string, released: string, awards: string,
    imdbId: string)

  const NoPlot := "No plot available."
  const NotRated := "NR"
  const NotAvailable := "N/A"

  /** The first rating's value when `Ratings` is a non-empty array. */
  function TopRating(ratings: Option<seq<Rating>>): string {
    if ratings.Some? && |ratings.value| > 0 then ratings.value[0].value else NotAvailable
  }

  function ViewOf(d: DetailsData): DetailsView {
    DetailsView(
      SafePoster(d.poster), d.title, d.year,
      Or(d.rated, NotRated), Or(d.runtime, NotAvailable), Or(d.genre, NotAvailable),
      Or(d.imdbRating, NotAvailable), TopRating(d.ratings), Or(d.plot, NoPlot),
      Or(d.director, NotAvailable), Or(d.actors, NotAvailable),
      Or(d.released, NotAvailable), Or(d.awards, NotAvailable),
      Or(d.imdbId, NotAvailable))
  }

  /** A field with a value other than the empty string is shown as it is. */
  predicate Present(f: Option<string>) {
    f.Some? && f.value != ""
  }

  /** The top rating is the first rating's value when there is one, and the
      sentinel "N/A" otherwise. */
  lemma TopRatingChoice(ratings: Option<seq<Rating>>)
    ensures ratings == None || ratings == Some([]) ==> TopRating(ratings) == "N/A"
    ensures forall r: Rating, rest: seq<Rating> :: ratings == Some([r] + rest) ==> TopRating(ratings) == r.value
  {
  }

  /** The renderer never meets a missing field: every defaulted field of the
      view is non-empty, and each shows the service's value when that value
      is present and its own sentinel when it is not. */
  lemma ViewDefaults(d: DetailsData)
    ensures var v := ViewOf(d);
      && v.rated != "" && v.runtime != "" && v.genre != "" && v.imdbRating != ""
      && v.plot != "" && v.director != "" && v.actors != "" && v.released != ""
      && v.awards != "" && v.imdbId != ""
      && v.rated == (if Present(d.rated) then d.rated.value else "NR")
      && v.plot == (if Present(d.plot) then d.plot.value else "No plot available.")
      && v.runtime == (if Present(d.runtime) then d.runtime.value else "N/A")
      && v.genre == (if Present(d.genre) then d.genre.value else "N/A")
      && v.imdbRating == (if Present(d.imdbRating) then d.imdbRating.value else "N/A")
      && v.director == (if Present(d.director) then d.director.value else "N/A")
      && v.actors == (if Present(d.actors) then d.actors.value else "N/A")
      && v.released == (if Present(d.released) then d.released.value else "N/A")
      && v.awards == (if Present(d.awards) then d.awards.value else "N/A")
      && v.imdbId == (if Present(d.imdbId) then d.imdbId.value else "N/A")
      && v.topRating == TopRating(d.ratings)
  {
  }

  /** The view shows the record's title and year unchanged, and a poster
      only when the record has a real one. */
  lemma ViewKeepsIdentity(d: DetailsData)
    ensures ViewOf(d).title == d.title && ViewOf(d).year == d.year
    ensures ViewOf(d).poster != "" <==> Present(d.poster) && d.poster.value != "N/A"
  {
  }
}
