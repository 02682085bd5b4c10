/**
 * The feed mapping of `PodcastIndex.search_podcasts`: every feed of the PodcastIndex search
 * response becomes one podcast summary, in order. Nothing is caught: a feed without `url`
 * raises `KeyError`, and a failed request raises too.
 */
module PodcastIndex {
  import opened Wrappers
  import opened Sequences
  import opened Podcasts

  /** One element of the PodcastIndex `feeds` array: the keys the normaliser reads. */
  datatype IndexFeed = IndexFeed(
    podcastGuid: Option<string>,
    title: Option<string>,
    author: Option<string>,
    url: Option<string>,
    artwork: Option<string>,
    categories: Option<seq<(string, string)>>)  // a JSON object, as its (key, value) pairs in order

  /** The request raised (no connection, a body that is not JSON), or gave a JSON object. */
  datatype IndexResponse = RequestFailed | Decoded(feeds: Option<seq<IndexFeed>>)

  /** The exceptions `search_podcasts` lets through. */
  datatype SearchError = RequestError | MissingKey(key: string)

  /** `search_podcasts` returns summaries or raises. */
  datatype SearchOutcome = Returned(podcasts: seq<PodcastSummary>) | Raised(error: SearchError)

  /** `feed.get('categories', {}).values()`: the category names, in the object's order. */
  function CategoryNames(feed: IndexFeed): (names: seq<string>)
    ensures feed.categories.None? ==> names == []
    ensures feed.categories.Some? ==>
              |names| == |feed.categories.value|
              && forall k :: 0 <= k < |names| ==> names[k] == feed.categories.value[k].1
  {
    MapSeq(feed.categories.GetOr([]), (c: (string, string)) => c.1)
  }

  /** The summary built for a feed that has a `url`. */
  function IndexSummary(feed: IndexFeed): PodcastSummary
  {
    PodcastSummary(
      Some(feed.podcastGuid.GetOr("0")),
      feed.title.GetOr("Unknown"),
      feed.author.GetOr("Unknown"),
      feed.url.GetOr(""),
      feed.artwork.GetOr(""),
      GenreList(CategoryNames(feed)))
  }

  predicate AllHaveUrl(feeds: seq<IndexFeed>)
  {
    forall i :: 0 <= i < |feeds| ==> feeds[i].url.Some?
  }

  /** What `search_podcasts` returns, or raises, for the response its request produced. */
  function Search(response: IndexResponse): SearchOutcome
  {
    match response
    case RequestFailed => Raised(RequestError)
    case Decoded(feeds) =>
      if AllHaveUrl(feeds.GetOr([])) then Returned(MapSeq(feeds.GetOr([]), IndexSummary))
      else Raised(MissingKey("url"))
  }

  /** The `for feed in feeds` loop, one summary per feed; `feed['url']` raises when the key is missing. */
  method SearchPodcasts(response: IndexResponse) returns (outcome: SearchOutcome)
    ensures outcome == Search(response)
    ensures response.Decoded? && response.feeds.None? ==> outcome == Returned([])
    ensures response.Decoded? && !AllHaveUrl(response.feeds.GetOr([])) ==> outcome == Raised(MissingKey("url"))
  {
    if response.RequestFailed? {
      return Raised(RequestError);
    }
    var feeds := response.feeds.GetOr([]);
    var podcasts := [];
    for i := 0 to |feeds|
      invariant AllHaveUrl(feeds[..i])
      invariant podcasts == MapSeq(feeds[..i], IndexSummary)
    {
      var feed := feeds[i];
      if feed.url.None? {
        assert !AllHaveUrl(feeds);
        return Raised(MissingKey("url"));
      }
      assert feeds[..i + 1][..i] == feeds[..i];
      var podcast := PodcastSummary(
        Some(feed.podcastGuid.GetOr("0")),
        feed.title.GetOr("Unknown"),
        feed.author.GetOr("Unknown"),
        feed.url.value,
        feed.artwork.GetOr(""),
        GenreList(CategoryNames(feed)));
      podcasts := podcasts + [podcast];
    }
    assert feeds[..|feeds|] == feeds;
    outcome := Returned(podcasts);
  }

  /**
   * When every feed has a `url`, there is exactly one summary per feed, in order, carrying that
   * `url`, `'Unknown'` for a missing title or author, `''` for missing artwork, `"0"` for a
   * missing `podcastGuid`, and the category names in order as its genre.
   */
  lemma {:induction false} OneSummaryPerFeed(feeds: seq<IndexFeed>)
    requires AllHaveUrl(feeds)
    ensures Search(IndexResponse.Decoded(Some(feeds))).Returned?
    ensures var podcasts := Search(IndexResponse.Decoded(Some(feeds))).podcasts;
      && |podcasts| == |feeds|
      && forall j :: 0 <= j < |feeds| ==>
           var feed, p := feeds[j], podcasts[j];
           && feed.url == Some(p.feedUrl)
           && p.id == Some(if feed.podcastGuid.Some? then feed.podcastGuid.value else "0")
           && p.name == (if feed.title.Some? then feed.title.value else "Unknown")
           && p.artist == (if feed.author.Some? then feed.author.value else "Unknown")
           && p.artworkUrl == (if feed.artwork.Some? then feed.artwork.value else "")
           && p.genre.GenreList?
           && |p.genre.names| == (if feed.categories.Some? then |feed.categories.value| else 0)
           && forall k :: 0 <= k < |p.genre.names| ==> p.genre.names[k] == feed.categories.value[k].1
  {
    forall j | 0 <= j < |feeds|
      ensures |CategoryNames(feeds[j])| == if feeds[j].categories.Some? then |feeds[j].categories.value| else 0
    {
    }
  }
}
