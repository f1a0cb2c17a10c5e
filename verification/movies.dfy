/** Values shared by the movie grid and the search bar: the movie summaries
    the list endpoints return, and the outcome of one HTTP round trip. */
module Movies {

  /** A JSON field that may be absent (or null): `undefined`/`null` is None. */
  datatype Option<+T> = None | Some(value: T)

  /** One `fetch` followed by `response.json()`: either one of them threw
      (network failure, unparsable body), or a body was received. */
  datatype Fetch<+T> = Failed | Received(body: T)

  /** A movie summary from the popular or search list endpoint. TMDB ids are
      positive integers, so the id is a natural number here. */
  datatype Movie = Movie(id: nat, title: string, posterPath: string, backdropPath: string)

  /** The body of a list endpoint: `{ results: [...] }`, the field possibly missing. */
  datatype ListBody = ListBody(results: Option<seq<Movie>>)

  /** The movie list a list response carries, if any. This is the test both
      `if (!data.results)` and `if (data.results)` make: a missing or null field
      is falsy, while any array, the empty one included, is truthy. */
  function ResultsOf(response: Fetch<ListBody>): (r: Option<seq<Movie>>)
    ensures r.Some? <==> response.Received? && response.body.results.Some?
    ensures r.Some? ==> r.value == response.body.results.value
  {
    match response
    case Failed => None
    case Received(body) => body.results
  }
}
