/** The movie grid of the page: the list shown is padded with inert
    placeholder cells up to a minimum of six, and only real cards carry a
    click handler. */
module Grid {
  import opened Movies
  import Decimal

  /** The grid never shows fewer cells than this once it has any movie. */
  const MinCells: nat := 6

  const PlaceholderPrefix: string := "placeholder-"

  /** One grid cell: a real movie card, or a placeholder with its synthetic id. */
  datatype Cell = Card(movie: Movie) | Placeholder(id: string)

  /** The id given to the placeholder appended at position k. */
  function PlaceholderId(k: nat): string {
    PlaceholderPrefix + Decimal.FromNat(k)
  }

  function Max(a: int, b: int): int {
    if a < b then b else a
  }

  /** Every movie as a real card, in order (the copy `[...movies]`). */
  function Cards(movies: seq<Movie>): (cells: seq<Cell>)
    ensures |cells| == |movies|
    ensures forall i :: 0 <= i < |movies| ==> cells[i] == Card(movies[i])
  {
    seq(|movies|, i requires 0 <= i < |movies| => Card(movies[i]))
  }

  /** The padding loop: while fewer than MinCells cells, push a placeholder
      whose id names the current length. */
  function Pad(cells: seq<Cell>): (r: seq<Cell>)
    ensures |r| == Max(|cells|, MinCells)
    ensures r[..|cells|] == cells
    ensures forall k :: |cells| <= k < |r| ==> r[k] == Placeholder(PlaceholderId(k))
    decreases MinCells - |cells|
  {
    if |cells| < MinCells then Pad(cells + [Placeholder(PlaceholderId(|cells|))]) else cells
  }

  /** The cells the grid renders for a movie list: empty stays empty; a
      non-empty list keeps its movies first, in order, followed by
      placeholders up to MinCells. */
  function CompleteMovies(movies: seq<Movie>): (cells: seq<Cell>)
    ensures |movies| == 0 ==> cells == []
    ensures |movies| > 0 ==> |cells| == Max(|movies|, MinCells)
    ensures |movies| >= MinCells ==> cells == Cards(movies)
    ensures forall i :: 0 <= i < |movies| ==> cells[i] == Card(movies[i])
    ensures forall k :: |movies| <= k < |cells| ==> cells[k] == Placeholder(PlaceholderId(k))
  {
    var copy := Cards(movies);
    if |movies| > 0 then
      var r := Pad(copy);
      assert forall i :: 0 <= i < |movies| ==> r[i] == r[..|movies|][i];
      r
    else copy
  }

  /** The click handler a cell gets: `onClick={() => openModal(movie)}` on a
      real card, none on a placeholder. */
  function ClickTarget(cell: Cell): (r: Option<Movie>)
    ensures r.Some? <==> cell.Card?
    ensures cell.Card? ==> r == Some(cell.movie)
  {
    match cell
    case Card(m) => Some(m)
    case Placeholder(_) => None
  }

  /** A click on the grid cell at position k reaches `openModal` exactly
      when k is a real movie, and then with that very movie; a placeholder
      can never be opened. */
  lemma ClickReachesOnlyRealMovies(movies: seq<Movie>, k: nat)
    requires k < |CompleteMovies(movies)|
    ensures ClickTarget(CompleteMovies(movies)[k]).Some? <==> k < |movies|
    ensures k < |movies| ==> ClickTarget(CompleteMovies(movies)[k]) == Some(movies[k])
    ensures k >= |movies| ==> CompleteMovies(movies)[k].Placeholder?
  {
  }

  /** The React key of a cell: a card is keyed by its movie id, a placeholder
      by its synthetic id. */
  function Key(cell: Cell): string {
    match cell
    case Card(m) => Decimal.FromNat(m.id)
    case Placeholder(id) => id
  }

  /** Placeholders at different positions have different ids. */
  lemma PlaceholderIdsDistinct(j: nat, k: nat)
    requires j != k
    ensures PlaceholderId(j) != PlaceholderId(k)
  {
    var pj, pk := PlaceholderId(j), PlaceholderId(k);
    if pj == pk {
      assert Decimal.FromNat(j) == pj[|PlaceholderPrefix|..];
      assert Decimal.FromNat(k) == pk[|PlaceholderPrefix|..];
      Decimal.FromNatInjective(j, k);
    }
  }

  /** When the movies' ids are pairwise distinct, so are the keys of all grid
      cells: card keys are digit strings, placeholder keys start with a letter. */
  lemma GridKeysDistinct(movies: seq<Movie>)
    requires forall i, j :: 0 <= i < j < |movies| ==> movies[i].id != movies[j].id
    ensures forall i, j :: 0 <= i < j < |CompleteMovies(movies)| ==>
      Key(CompleteMovies(movies)[i]) != Key(CompleteMovies(movies)[j])
  {
    var cells := CompleteMovies(movies);
    forall i, j | 0 <= i < j < |cells|
      ensures Key(cells[i]) != Key(cells[j])
    {
      if j < |movies| {
        Decimal.FromNatInjective(movies[i].id, movies[j].id);
      } else if i < |movies| {
        assert Key(cells[i])[0] != 'p';
        assert Key(cells[j])[0] == 'p';
      } else {
        PlaceholderIdsDistinct(i, j);
      }
    }
  }
}
