/** The movie page: its state record, the transitions its handlers and
    effects make, and which view and modal it renders. */
module Page {
  import opened Movies
  import Grid
  import Details
  import NavBar

  const LoadFailedMessage: string := "Failed to load movies."

  /** The page's six pieces of state. */
  datatype PageState = PageState(
    movies: seq<Movie>,
    loading: bool,
    errorMessage: string,
    selectedMovie: Option<Movie>,
    showModal: bool,
    movieDetails: Option<Details.MovieDetails>)

  /** The list half of the state is the same in s and t. */
  predicate SameList(s: PageState, t: PageState) {
    s.movies == t.movies && s.loading == t.loading && s.errorMessage == t.errorMessage
  }

  /** The modal half of the state is the same in s and t. */
  predicate SameModal(s: PageState, t: PageState) {
    s.selectedMovie == t.selectedMovie && s.showModal == t.showModal && s.movieDetails == t.movieDetails
  }

  /** The state on mount: no movies yet, loading, no error, no modal. */
  function Initial(): (s: PageState)
    ensures s.loading && s.movies == [] && s.errorMessage == ""
    ensures s.selectedMovie.None? && !s.showModal && s.movieDetails.None?
  {
    PageState([], true, "", None, false, None)
  }

  /** The popular-list request settles. A body with `results` replaces the
      movies; a failed request or a body without `results` sets the error
      message. Either way loading ends. */
  function LoadSettled(s: PageState, response: Fetch<ListBody>): (t: PageState)
    ensures !t.loading && SameModal(s, t)
    ensures ResultsOf(response).Some? ==>
      t.movies == ResultsOf(response).value && t.errorMessage == s.errorMessage
    ensures ResultsOf(response).None? ==>
      t.movies == s.movies && t.errorMessage == LoadFailedMessage
  {
    match ResultsOf(response)
    case Some(results) => s.(movies := results, loading := false)
    case None => s.(errorMessage := LoadFailedMessage, loading := false)
  }

  /** The search callback: the list is replaced verbatim, nothing merged. */
  function HandleSearchResults(s: PageState, results: seq<Movie>): (t: PageState)
    ensures t.movies == results
    ensures t.loading == s.loading && t.errorMessage == s.errorMessage && SameModal(s, t)
  {
    s.(movies := results)
  }

  /** Selecting a movie opens the modal on it. The previous detail record is
      not cleared. */
  function OpenModal(s: PageState, m: Movie): (t: PageState)
    ensures t.selectedMovie == Some(m) && t.showModal
    ensures t.movieDetails == s.movieDetails && SameList(s, t)
  {
    s.(selectedMovie := Some(m), showModal := true)
  }

  /** Closing the modal clears the selection and the detail record. */
  function CloseModal(s: PageState): (t: PageState)
    ensures !t.showModal && t.selectedMovie.None? && t.movieDetails.None?
    ensures SameList(s, t)
  {
    s.(showModal := false, selectedMovie := None, movieDetails := None)
  }

  /** The three detail requests settle. A composed record is stored
      unconditionally, whatever is selected now; on any failure the state is
      left as it was. */
  function DetailsSettled(s: PageState, details: Fetch<Details.DetailsBody>,
                          videos: Fetch<Details.VideosBody>, credits: Fetch<Details.CreditsBody>): (t: PageState)
    ensures SameList(s, t) && t.selectedMovie == s.selectedMovie && t.showModal == s.showModal
    ensures Details.ComposeDetails(details, videos, credits).Some? ==>
      t.movieDetails == Details.ComposeDetails(details, videos, credits)
    ensures Details.ComposeDetails(details, videos, credits).None? ==> t == s
  {
    match Details.ComposeDetails(details, videos, credits)
    case Some(d) => s.(movieDetails := Some(d))
    case None => s
  }

  /** What the main area of the page shows. */
  datatype MainView = LoadingView | ErrorView(message: string) | EmptyView | GridView(cells: seq<Grid.Cell>)

  function RenderMain(s: PageState): MainView {
    if s.loading then LoadingView
    else if s.errorMessage != "" then ErrorView(s.errorMessage)
    else if |s.movies| == 0 then EmptyView
    else GridView(Grid.CompleteMovies(s.movies))
  }

  /** The modal's detail block. */
  datatype DetailPanel = DetailPanel(
    releaseDate: string,
    overview: string,
    trailerLink: Option<string>,
    cast: seq<Details.CastMember>,
    backdropPath: string)

  /** The modal: the selected movie's title and, once present, the details. */
  datatype Modal = Modal(title: string, panel: Option<DetailPanel>)

  function RenderModal(s: PageState): Option<Modal> {
    if s.showModal && s.selectedMovie.Some? then
      var m := s.selectedMovie.value;
      var panel := match s.movieDetails
        case None => None
        case Some(d) =>
          // `trailerUrl && <a …>`: a null or empty link is not rendered
          var link := if d.trailerUrl.Some? && d.trailerUrl.value != "" then d.trailerUrl else None;
          Some(DetailPanel(d.info.releaseDate, d.info.overview, link, d.cast, m.backdropPath));
      Some(Modal(m.title, panel))
    else None
  }

  /** The main view follows the precedence loading, then error, then empty,
      then grid; the grid shows the padded movie list. */
  lemma ViewPrecedence(s: PageState)
    ensures RenderMain(s) == LoadingView <==> s.loading
    ensures RenderMain(s).ErrorView? <==> !s.loading && s.errorMessage != ""
    ensures RenderMain(s) == EmptyView <==> !s.loading && s.errorMessage == "" && |s.movies| == 0
    ensures RenderMain(s).GridView? <==> !s.loading && s.errorMessage == "" && |s.movies| > 0
    ensures RenderMain(s).GridView? ==>
      RenderMain(s).cells == Grid.CompleteMovies(s.movies) && |RenderMain(s).cells| >= Grid.MinCells
  {
  }

  /** Everything that happens to the page after mount. */
  datatype PageEvent =
    | Settle(response: Fetch<ListBody>)
    | SearchResponse(response: Fetch<ListBody>)
    | Click(index: nat)
    | Close  // the close button, which exists only inside the rendered modal
    | DetailResponses(details: Fetch<Details.DetailsBody>, videos: Fetch<Details.VideosBody>, credits: Fetch<Details.CreditsBody>)

  /** A click on the index-th rendered grid cell: only a real card has a
      handler, and only a rendered grid has cells to click. */
  function ClickCell(s: PageState, index: nat): PageState {
    match RenderMain(s)
    case GridView(cells) =>
      if index < |cells| then
        match Grid.ClickTarget(cells[index])
        case Some(m) => OpenModal(s, m)
        case None => s
      else s
    case _ => s
  }

  /** The modal is open exactly when a movie is selected. */
  predicate ModalConsistent(s: PageState) {
    s.showModal <==> s.selectedMovie.Some?
  }

  function Step(s: PageState, e: PageEvent): (t: PageState)
    ensures ModalConsistent(s) ==> ModalConsistent(t)
    ensures !e.Settle? ==> t.loading == s.loading
    ensures s.errorMessage != "" ==> t.errorMessage != ""
    ensures e.Close? ==> RenderModal(t).None?
    ensures e.Close? && RenderModal(s).None? ==> t == s
  {
    match e
    case Settle(response) => LoadSettled(s, response)
    case SearchResponse(response) =>
      (match NavBar.SearchCallback(response)
       case Some(results) => HandleSearchResults(s, results)
       case None => s)
    case Click(index) => ClickCell(s, index)
    case Close => if RenderModal(s).Some? then CloseModal(s) else s
    case DetailResponses(d, v, c) => DetailsSettled(s, d, v, c)
  }

  function Run(s: PageState, evs: seq<PageEvent>): PageState
    decreases |evs|
  {
    if |evs| == 0 then s else Run(Step(s, evs[0]), evs[1..])
  }

  /** From mount on, through any sequence of events, the modal is open
      exactly when a movie is selected. */
  lemma {:induction false} RunKeepsModalConsistent(s: PageState, evs: seq<PageEvent>)
    requires ModalConsistent(s)
    ensures ModalConsistent(Run(s, evs))
    decreases |evs|
  {
    if |evs| > 0 {
      RunKeepsModalConsistent(Step(s, evs[0]), evs[1..]);
    }
  }

  /** In a consistent state the modal renders exactly when it is open, on
      the selected movie, and its detail block exactly when a detail record
      is present. */
  lemma ModalShownIffOpen(s: PageState)
    requires ModalConsistent(s)
    ensures RenderModal(s).Some? <==> s.showModal
    ensures RenderModal(s).Some? ==> RenderModal(s).value.title == s.selectedMovie.value.title
    ensures RenderModal(s).Some? ==> (RenderModal(s).value.panel.Some? <==> s.movieDetails.Some?)
  {
  }

  /** The trailer link of the modal is shown exactly when the videos listing
      had a YouTube trailer, and then it is the watch URL of the first one. */
  lemma TrailerLinkShownIffTrailer(s: PageState, details: Fetch<Details.DetailsBody>,
                                   vs: seq<Details.Video>, credits: Fetch<Details.CreditsBody>)
    requires s.showModal && s.selectedMovie.Some?
    requires Details.ComposeDetails(details, Received(Details.VideosBody(Some(vs))), credits).Some?
    ensures var t := DetailsSettled(s, details, Received(Details.VideosBody(Some(vs))), credits);
      && RenderModal(t).Some? && RenderModal(t).value.panel.Some?
      && (RenderModal(t).value.panel.value.trailerLink.Some? <==>
          exists i :: 0 <= i < |vs| && Details.IsYouTubeTrailer(vs[i]))
      && RenderModal(t).value.panel.value.trailerLink == Details.TrailerUrl(vs)
      && RenderModal(t).value.panel.value.cast == Details.TopCast(credits.body.cast.value)
  {
  }

  /** Until the popular list settles, nothing else ends the loading view. */
  lemma {:induction false} LoadingUntilSettled(s: PageState, evs: seq<PageEvent>)
    requires s.loading
    requires forall i :: 0 <= i < |evs| ==> !evs[i].Settle?
    ensures Run(s, evs).loading && RenderMain(Run(s, evs)) == LoadingView
    decreases |evs|
  {
    if |evs| > 0 {
      LoadingUntilSettled(Step(s, evs[0]), evs[1..]);
    }
  }

  /** On every outcome of the initial load the loading view ends; a response
      without results shows the error and never the grid; one with results
      shows them, padded, or the empty view. */
  lemma InitialLoadOutcome(response: Fetch<ListBody>)
    ensures RenderMain(LoadSettled(Initial(), response)) != LoadingView
    ensures ResultsOf(response).None? ==>
      RenderMain(LoadSettled(Initial(), response)) == ErrorView(LoadFailedMessage)
      && LoadSettled(Initial(), response).movies == []
    ensures ResultsOf(response).Some? && ResultsOf(response).value == [] ==>
      RenderMain(LoadSettled(Initial(), response)) == EmptyView
    ensures ResultsOf(response).Some? && ResultsOf(response).value != [] ==>
      RenderMain(LoadSettled(Initial(), response)) == GridView(Grid.CompleteMovies(ResultsOf(response).value))
  {
  }

  /** The error message is never cleared: once the load has failed, no later
      search result, click or detail response brings the grid back. */
  lemma {:induction false} ErrorIsPermanent(s: PageState, evs: seq<PageEvent>)
    requires !s.loading && s.errorMessage != ""
    ensures RenderMain(Run(s, evs)).ErrorView?
    decreases |evs|
  {
    if |evs| > 0 {
      ErrorIsPermanent(Step(s, evs[0]), evs[1..]);
    }
  }

  /** A search response with results replaces the list verbatim; a failed
      request or one without results leaves the whole page as it was. */
  lemma SearchResponseEffect(s: PageState, response: Fetch<ListBody>)
    ensures ResultsOf(response).Some? ==>
      Step(s, SearchResponse(response)).movies == ResultsOf(response).value
    ensures ResultsOf(response).None? ==> Step(s, SearchResponse(response)) == s
    ensures SameModal(s, Step(s, SearchResponse(response)))
  {
  }

  /** A click opens the modal exactly when the grid is shown and the clicked
      cell holds a real movie, and then on that movie; any other click
      leaves the page unchanged. */
  lemma ClickOpensOnlyRealMovies(s: PageState, index: nat)
    ensures Step(s, Click(index)) != s ==> Step(s, Click(index)).showModal
    ensures (RenderMain(s).GridView? && index < |s.movies|) ==>
      Step(s, Click(index)) == OpenModal(s, s.movies[index])
    ensures !(RenderMain(s).GridView? && index < |s.movies|) ==> Step(s, Click(index)) == s
  {
  }

  /** Detail arrival is not guarded by the current selection: a record
      composed for one movie that arrives after the modal was closed is kept,
      and shows in the modal of the next movie opened. */
  lemma StaleDetailsReachNextModal(m1: Movie, m2: Movie, d: Details.DetailsBody,
                                   vs: seq<Details.Video>, cs: seq<Details.CastMember>)
    requires m1 != m2
    ensures var s0 := LoadSettled(Initial(), Received(ListBody(Some([m1, m2]))));
      var late := DetailResponses(Received(d), Received(Details.VideosBody(Some(vs))),
                                  Received(Details.CreditsBody(Some(cs))));
      var s := Run(s0, [Click(0), Close, late, Click(1)]);
      && s.selectedMovie == Some(m2)
      && RenderModal(s).Some? && RenderModal(s).value.title == m2.title
      && RenderModal(s).value.panel.Some?
      && RenderModal(s).value.panel.value.overview == d.overview
  {
    var s0 := LoadSettled(Initial(), Received(ListBody(Some([m1, m2]))));
    var late := DetailResponses(Received(d), Received(Details.VideosBody(Some(vs))),
                                Received(Details.CreditsBody(Some(cs))));
    var evs := [Click(0), Close, late, Click(1)];
    var s1 := Step(s0, Click(0));
    ClickOpensOnlyRealMovies(s0, 0);
    var s2 := Step(s1, Close);
    var s3 := Step(s2, late);
    ClickOpensOnlyRealMovies(s3, 1);
    var s4 := Step(s3, Click(1));
    assert evs[1..] == [Close, late, Click(1)];
    assert [Close, late, Click(1)][1..] == [late, Click(1)];
    assert [late, Click(1)][1..] == [Click(1)];
    assert Run(s3, [Click(1)]) == Run(s4, [Click(1)][1..]) == s4;
    assert Run(s2, [late, Click(1)]) == Run(s3, [Click(1)]);
    assert Run(s1, [Close, late, Click(1)]) == Run(s2, [late, Click(1)]);
  }
}
