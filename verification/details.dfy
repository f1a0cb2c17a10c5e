/** Building the detail record shown in the modal from the three responses
    of the detail, videos and credits endpoints. */
module Details {
  import opened Movies

  /** One entry of the videos listing (`type` is spelled `kind` here). */
  datatype Video = Video(kind: string, site: string, key: string)

  datatype CastMember = CastMember(id: nat, name: string, character: string)

  /** The fields of the single-movie endpoint the modal reads from the
      detail record; its title and backdrop come from the selected movie. */
  datatype DetailsBody = DetailsBody(overview: string, releaseDate: string)

  /** `{ results: [...] }` of the videos endpoint, the field possibly missing. */
  datatype VideosBody = VideosBody(results: Option<seq<Video>>)

  /** `{ cast: [...] }` of the credits endpoint, the field possibly missing. */
  datatype CreditsBody = CreditsBody(cast: Option<seq<CastMember>>)

  /** The composed record: the detail fields, the trailer link (null when
      there is no trailer) and the leading cast. */
  datatype MovieDetails = MovieDetails(info: DetailsBody, trailerUrl: Option<string>, cast: seq<CastMember>)

  const WatchUrlPrefix: string := "https://www.youtube.com/watch?v="

  /** How many credits the modal lists. */
  const CastLimit: nat := 5

  predicate IsYouTubeTrailer(v: Video) {
    v.kind == "Trailer" && v.site == "YouTube"
  }

  /** The position of the first YouTube trailer, as `Array.prototype.find`
      scans: None exactly when there is none. */
  function FirstTrailer(videos: seq<Video>): (r: Option<nat>)
    ensures r.None? <==> forall i :: 0 <= i < |videos| ==> !IsYouTubeTrailer(videos[i])
    ensures r.Some? ==> r.value < |videos| && IsYouTubeTrailer(videos[r.value])
    ensures r.Some? ==> forall j :: 0 <= j < r.value ==> !IsYouTubeTrailer(videos[j])
  {
    if |videos| == 0 then None
    else if IsYouTubeTrailer(videos[0]) then Some(0)
    else
      match FirstTrailer(videos[1..])
      case None => None
      case Some(i) => Some(i + 1)
  }

  function WatchUrl(key: string): string {
    WatchUrlPrefix + key
  }

  /** The trailer link of a videos listing. */
  function TrailerUrl(videos: seq<Video>): Option<string> {
    match FirstTrailer(videos)
    case None => None
    case Some(i) => Some(WatchUrl(videos[i].key))
  }

  /** The link is null exactly when no video is a YouTube trailer; otherwise
      it is the watch URL of the first such video, and the key can be read
      back from it. */
  lemma TrailerUrlFromFirstTrailer(videos: seq<Video>)
    ensures TrailerUrl(videos).None? <==> forall i :: 0 <= i < |videos| ==> !IsYouTubeTrailer(videos[i])
    ensures TrailerUrl(videos).Some? ==>
      exists i :: 0 <= i < |videos| && IsYouTubeTrailer(videos[i])
        && (forall j :: 0 <= j < i ==> !IsYouTubeTrailer(videos[j]))
        && TrailerUrl(videos).value == WatchUrl(videos[i].key)
    ensures TrailerUrl(videos).Some? ==>
      TrailerUrl(videos).value[..|WatchUrlPrefix|] == WatchUrlPrefix && |TrailerUrl(videos).value| > 0
  {
  }

  /** Videos that are not YouTube trailers, placed in front, never change
      which trailer is picked. */
  lemma NonTrailersBeforeDoNotMatter(prefix: seq<Video>, videos: seq<Video>)
    requires forall i :: 0 <= i < |prefix| ==> !IsYouTubeTrailer(prefix[i])
    ensures TrailerUrl(prefix + videos) == TrailerUrl(videos)
  {
    var all := prefix + videos;
    match FirstTrailer(videos)
    case None =>
      assert forall i :: 0 <= i < |all| ==> !IsYouTubeTrailer(all[i]) by {
        forall i | 0 <= i < |all| ensures !IsYouTubeTrailer(all[i]) {
          if i >= |prefix| { assert all[i] == videos[i - |prefix|]; }
        }
      }
    case Some(i) =>
      assert all[|prefix| + i] == videos[i];
      assert FirstTrailer(all).value == |prefix| + i;
  }

  /** The leading credits, `cast.slice(0, 5)`: a prefix of the credits of at
      most CastLimit entries, the whole list when it is shorter. */
  function TopCast(cast: seq<CastMember>): (r: seq<CastMember>)
    ensures r <= cast
    ensures |r| <= CastLimit
    ensures |r| < CastLimit ==> r == cast
  {
    if |cast| <= CastLimit then cast else cast[..CastLimit]
  }

  /** The detail record for three settled responses. Any failed fetch, a
      videos body without `results` or a credits body without `cast` throws
      in the source and is caught: no record is produced. */
  function ComposeDetails(details: Fetch<DetailsBody>, videos: Fetch<VideosBody>, credits: Fetch<CreditsBody>)
    : (r: Option<MovieDetails>)
    ensures r.Some? <==>
      && details.Received?
      && videos.Received? && videos.body.results.Some?
      && credits.Received? && credits.body.cast.Some?
    ensures r.Some? ==>
      && r.value.info == details.body
      && r.value.trailerUrl == TrailerUrl(videos.body.results.value)
      && r.value.cast == TopCast(credits.body.cast.value)
  {
    match (details, videos, credits)
    case (Received(d), Received(VideosBody(Some(vs))), Received(CreditsBody(Some(cs)))) =>
      Some(MovieDetails(d, TrailerUrl(vs), TopCast(cs)))
    case _ => None
  }
}
