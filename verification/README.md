# MovieCatalog core, modelled in Dafny

A model of the logic inside the two React components of a small movie
browser: the movie page (`CardFilm.jsx`, component `MovieCard`) and its
search bar (`NavBar.jsx`). The rendering code is reduced to the pure rules
and state transitions it contains, and these are stated as Dafny functions
with contracts and lemmas.

- `Movies` (`movies.dfy`): movie summaries, list bodies and the outcome of
  one request (`Fetch`: the request or its JSON parse threw, or a body
  arrived). A missing or null JSON field is `None`.
- `Decimal` (`decimal.dfy`): how a number is spelled inside a template
  literal, for placeholder ids and React keys.
- `Grid` (`grid.dfy`): padding the grid to six cells with placeholders, the
  click handler a cell gets, and cell keys.
- `Details` (`details.dfy`): picking the trailer, slicing the cast, and
  composing the detail record from the three detail responses.
- `Text` (`text.dfy`): `String.prototype.trim` with the ECMAScript
  white-space and line-terminator code points.
- `NavBar` (`navbar.dfy`): the search input, the debounce timer its effect
  schedules and cancels, an abstract clock, and the guard on the search
  response.
- `Page` (`page.dfy`): the page's six state fields, the transitions made by
  the initial load, the search callback, `openModal`, `closeModal` and
  detail arrival, the view and modal rendered, and runs of events.

Timers, React effects and the network are replaced by explicit events: an
input `Change`, an `Advance` of the clock, and the settled responses of each
request, given as input values.

Behaviours of the code that the model keeps as written:

- `openModal` (`CardFilm.jsx:68-72`) does not clear `movieDetails`.
  `closeModal` (`CardFilm.jsx:74-78`) does clear it, so in the usual
  open, close, open sequence there is no earlier record. A previous movie's
  record still reaches the next modal in two ways. One is a detail response
  that settles after the close (`Page.StaleDetailsReachNextModal`). The
  other is a card clicked while a modal is shown, since nothing in the
  component stops that click.
- `if (!data.results)` (`CardFilm.jsx:21`) treats an empty `results` array
  as success, because arrays are truthy in JavaScript. An empty list shows
  "No movies found.", not the error message.
- `errorMessage` is never reset. After a failed initial load, later search
  results replace `movies` but the error view stays (`Page.ErrorIsPermanent`).
- Detail arrival (`CardFilm.jsx:58-62`) is not checked against the current
  selection. A record is stored even when it arrives after the modal closed.
- The three detail requests are sequential awaits (`CardFilm.jsx:39-55`).
  The model only composes their settled results.
- The close button exists only inside the rendered modal
  (`CardFilm.jsx:131-134`). A `Close` event when no modal is shown changes
  nothing.

## Model

| member | source | states |
|---|---|---|
| `Grid.Pad` | src/components/CardFilm.jsx:86-88 | the loop's result keeps the cells it started with as a prefix, has max(n, 6) cells, and the cell at each appended position k is a placeholder with id `placeholder-k` |
| `Grid.CompleteMovies` | src/components/CardFilm.jsx:84-89 | an empty list stays empty; a non-empty one has max(n, 6) cells; the movies come first as cards in their order; every later cell is placeholder k with id `placeholder-k`; six or more movies get no placeholder |
| `Grid.ClickTarget` | src/components/CardFilm.jsx:111-117 | a cell has a click handler exactly when it is a real card, and that handler opens the card's own movie |
| `Grid.ClickReachesOnlyRealMovies` | src/components/CardFilm.jsx:110-117 | a click on grid position k reaches `openModal` exactly when k < n, and then with movies[k]; positions from n on are placeholders |
| `Grid.PlaceholderIdsDistinct` | src/components/CardFilm.jsx:87 | placeholders at different positions get different ids |
| `Grid.GridKeysDistinct` | src/components/CardFilm.jsx:110-115 | when movie ids are distinct, every cell of the padded grid has a distinct key |
| `Decimal.ValueOfFromNat` | src/components/CardFilm.jsx:87 | the decimal spelling of the length in a placeholder id reads back as that number |
| `Details.FirstTrailer` | src/components/CardFilm.jsx:48-50 | the result is None exactly when no video has type `Trailer` and site `YouTube`; otherwise it is the index of such a video with no earlier one |
| `Details.TrailerUrlFromFirstTrailer` | src/components/CardFilm.jsx:48-60 | the trailer URL is null exactly when there is no YouTube trailer; otherwise it is the watch URL of the first one's key, and it is non-empty |
| `Details.NonTrailersBeforeDoNotMatter` | src/components/CardFilm.jsx:48-50 | videos that are not YouTube trailers, put in front, never change the trailer URL |
| `Details.TopCast` | src/components/CardFilm.jsx:56 | the cast is a prefix of the credits, at most five long, and the whole list when it has fewer than five |
| `Details.ComposeDetails` | src/components/CardFilm.jsx:37-65 | a record is produced exactly when all three requests succeed and the bodies carry `results` and `cast`; it holds the detail fields, the trailer URL and the top cast |
| `Movies.ResultsOf` | src/components/CardFilm.jsx:21-25 | a list response yields movies exactly when a body with `results` arrived, and then that list unchanged |
| `Page.Initial` | src/components/CardFilm.jsx:6-11 | on mount the page is loading, with no movies, no error and no modal |
| `Page.LoadSettled` | src/components/CardFilm.jsx:21-31 | loading is false on every outcome; a response with `results` replaces the movies; any other sets the failure message and leaves movies as they were; the modal is untouched |
| `Page.HandleSearchResults` | src/components/CardFilm.jsx:80-82 | the movie list becomes the search results verbatim; loading, error and modal state stay as they were |
| `Page.OpenModal` | src/components/CardFilm.jsx:68-72 | the selected movie is the one given and the modal is shown; the detail record and the list are kept |
| `Page.CloseModal` | src/components/CardFilm.jsx:74-78 | the modal is hidden and both the selection and the detail record are cleared; the list is kept |
| `Page.DetailsSettled` | src/components/CardFilm.jsx:58-65 | a composed record is stored whatever is selected; on any failure the page is unchanged; selection and modal visibility never change |
| `Page.ViewPrecedence` | src/components/CardFilm.jsx:100-129 | the view is loading, then error, then empty, then grid, each exactly under its condition; the grid holds the padded list of at least six cells |
| `Page.Step` | src/components/CardFilm.jsx:68-134 | every transition keeps "modal shown iff a movie is selected"; only the load settling changes `loading`; a set error message is never cleared; after a close no modal renders, and a close with no modal shown changes nothing |
| `Page.RunKeepsModalConsistent` | src/components/CardFilm.jsx:68-78 | from a consistent state, after any sequence of events, the modal is shown exactly when a movie is selected |
| `Page.ModalShownIffOpen` | src/components/CardFilm.jsx:131-136 | in a consistent state the modal renders exactly when `showModal` holds, titled with the selected movie, and its detail block exactly when a record is present |
| `Page.TrailerLinkShownIffTrailer` | src/components/CardFilm.jsx:140-154 | after details arrive for an open modal, the trailer link is rendered exactly when the videos had a YouTube trailer, it is the trailer URL, and the cast lines shown are the first five credits (all of them when fewer), in their original order |
| `Page.LoadingUntilSettled` | src/components/CardFilm.jsx:7-31 | until the popular list settles, no search result, click or detail response ends the loading view |
| `Page.InitialLoadOutcome` | src/components/CardFilm.jsx:21-31 | after the initial load the view is never loading; a response without results shows the failure message with no movies; results show the padded grid, or the empty view for an empty list |
| `Page.ErrorIsPermanent` | src/components/CardFilm.jsx:102-103 | once loading has ended with an error message, every later view is the error view |
| `Page.SearchResponseEffect` | src/components/CardFilm.jsx:80-82 | a search response with results replaces the movies with them; any other leaves the whole page unchanged; the modal is never touched |
| `Page.ClickOpensOnlyRealMovies` | src/components/CardFilm.jsx:110-117 | a click opens the modal on movies[k] exactly when the grid is shown and k < n; any other click changes nothing |
| `Page.StaleDetailsReachNextModal` | src/components/CardFilm.jsx:58-78 | details for one movie that arrive after its modal closed are shown in the modal of the next movie opened |
| `NavBar.Mount` | src/components/NavBar.jsx:5-15 | the first render has an empty input and one timer, for the empty input, due one delay later; this state satisfies the invariant every run lemma starts from |
| `NavBar.Schedule` | src/components/NavBar.jsx:8-12 | a scheduled timer captures the current input and is due exactly 500 units from now |
| `NavBar.OnChange` | src/components/NavBar.jsx:39 | the input takes the new value immediately; a real change replaces any pending timer with one for the new value due 500 units later; setting the same value changes nothing |
| `NavBar.OnTimer` | src/components/NavBar.jsx:9-11 | the timer searches exactly when its input is not blank, and then for that input |
| `NavBar.OnAdvance` | src/components/NavBar.jsx:8-12 | the clock advances; a search happens exactly when the pending timer is due and its query is not blank; a due timer is gone afterwards, one not yet due stays |
| `NavBar.Step` | src/components/NavBar.jsx:7-15 | each event keeps the pending timer on the current input and within one delay; the clock never goes back, from any state; a change sets the next possible search time to now + 500; only time passing searches |
| `NavBar.ChangePushesHorizon` | src/components/NavBar.jsx:7-15 | after an input change, no later state can search earlier than the change's time plus 500 |
| `NavBar.SearchOnlyAfterQuietPeriod` | src/components/NavBar.jsx:7-15 | in any run, a search fires only when time passes, for the input current at that moment, never for a blank input, and at least 500 units after every input change before it |
| `NavBar.ChangeThenQuietSearches` | src/components/NavBar.jsx:7-15 | a change to v followed by quiet time searches once for v when the time is at least 500 and v is not blank, and otherwise not at all |
| `NavBar.SupersededQueryNeverSearched` | src/components/NavBar.jsx:7-15 | typing a, then c less than 500 units later, then waiting, searches at most once and only for c |
| `NavBar.Unmount` | src/components/NavBar.jsx:14 | the cleanup leaves no timer pending |
| `NavBar.NoSearchAfterUnmount` | src/components/NavBar.jsx:14 | after unmounting, no search fires however much time passes |
| `NavBar.SearchCallback` | src/components/NavBar.jsx:22-28 | `onSearch` is called exactly when a body with `results` arrived, with that list unchanged; on a failure or a missing field nothing is called (the same test as `Movies.ResultsOf`) |
| `Text.TrimStart` | src/components/NavBar.jsx:9 | the result is the suffix of the input after its leading white space, and starts with a non-white character when non-empty |
| `Text.TrimEnd` | src/components/NavBar.jsx:9 | the result is the prefix of the input before its trailing white space, and ends with a non-white character when non-empty |
| `Text.TrimEmptyIffBlank` | src/components/NavBar.jsx:9 | the trimmed input is empty exactly when every character is white space |

## Left out

- HTTP `fetch`, `response.json()`, request URLs, the API key and
  `encodeURIComponent` are external I/O. Responses are input values, and
  the search query is handed over as an opaque string.
- JSX markup, CSS modules, animation class names and image CDN paths are
  presentation only. The modal keeps the backdrop path, not the image URL.
- `new Date(release_date).getFullYear()` is date parsing in the host. The
  modal keeps the raw release date.
- `console.error` logging is left out. A caught error is modelled as "no
  state change".
- The timer runtime and React's effect scheduling are not modelled. They
  are replaced by an abstract clock and `Change`/`Advance` events. A timer
  fires at the first `Advance` that reaches its deadline.
- `openModal` starts `fetchMovieDetails(movie.id)`, but the model does not
  record which id was requested. A `DetailResponses` event carries whatever
  responses settle next. This matches the code, which never checks them
  against the selection.
- Whether the modal overlay blocks clicks on the grid depends on styling,
  which is not part of this model. The model lets a card be clicked while a
  modal is shown, as the component's own code does.
- Detail responses are unconstrained events. They may settle when no
  request was started, even before the first click. The run lemmas
  therefore cover more runs than the page can produce.
- The order of the three detail requests and the interleaving of in-flight
  responses are not modelled. Search responses may arrive in any order;
  each one is applied when it arrives.
- The spread `...detailsData` is reduced to `overview` and `release_date`.
  These are the only detail fields the modal reads; it takes the title and
  backdrop from the selected movie.
- JSON values of unexpected types are not modelled. For example,
  `results` could be a non-array truthy value.
- A movie id is a natural number, and it is spelled in plain decimal. This
  is enough for TMDB ids; exponent notation for numbers of 10^21 and above
  is not modelled.
