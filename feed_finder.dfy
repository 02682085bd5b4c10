/**
 * The result mapping of `PodcastFeedFinder.search_podcast`: the same filter over iTunes
 * results as `Itunes.search_podcasts`, but its records have no `id` and default a missing
 * genre to `'Unknown'`.
 */
module FeedFinder {
  import opened Wrappers
  import opened Sequences
  import opened Podcasts
  import Itunes

  /** The record built for an item that has a feed URL; it has no `id` key. */
  function FinderSummary(item: ItunesItem): PodcastSummary
  {
    PodcastSummary(
      None,
      item.collectionName.GetOr("Unknown"),
      item.artistName.GetOr("Unknown"),
      item.feedUrl.GetOr(""),
      item.artworkUrl600.GetOr(""),
      GenreName(item.primaryGenreName.GetOr("Unknown")))
  }

  /** What `search_podcast` returns for the response its request produced. */
  function SearchResults(response: ItunesResponse): seq<PodcastSummary>
  {
    FilterMap(ItunesItems(response), HasFeedUrl, FinderSummary)
  }

  /** The `for item in results.get('results', [])` loop, with `continue` for items without a feed URL. */
  method SearchPodcast(response: ItunesResponse) returns (podcasts: seq<PodcastSummary>)
    ensures podcasts == SearchResults(response)
    ensures response.RequestFailed? || response.results.None? ==> podcasts == []
    ensures forall j :: 0 <= j < |podcasts| ==> podcasts[j].feedUrl != "" && podcasts[j].id.None?
    ensures |podcasts| <= |ItunesItems(response)|
  {
    if response.RequestFailed? {
      return [];
    }
    var items := response.results.GetOr([]);
    podcasts := [];
    for i := 0 to |items|
      invariant podcasts == FilterMap(items[..i], HasFeedUrl, FinderSummary)
      invariant forall j :: 0 <= j < |podcasts| ==> podcasts[j].feedUrl != "" && podcasts[j].id.None?
    {
      var item := items[i];
      assert items[..i + 1][..i] == items[..i];
      if !(item.feedUrl.Some? && item.feedUrl.value != "") {
        continue;
      }
      var podcast := PodcastSummary(
        None,
        item.collectionName.GetOr("Unknown"),
        item.artistName.GetOr("Unknown"),
        item.feedUrl.value,
        item.artworkUrl600.GetOr(""),
        GenreName(item.primaryGenreName.GetOr("Unknown")));
      podcasts := podcasts + [podcast];
    }
    assert items[..|items|] == items;
  }

  /**
   * The records are the items with a truthy `feedUrl`, in order, each carrying that `feedUrl`,
   * `'Unknown'` for a missing name, artist or genre, `''` for missing artwork, and no `id`.
   */
  lemma {:induction false} SearchResultsFromItems(response: ItunesResponse)
    ensures var podcasts, items := SearchResults(response), ItunesItems(response);
      var idx := KeptIndices(items, HasFeedUrl);
      && |podcasts| == |idx|
      && (forall j, j' :: 0 <= j < j' < |idx| ==> idx[j] < idx[j'])
      && (forall i :: 0 <= i < |items| && HasFeedUrl(items[i]) ==> i in idx)
      && forall j :: 0 <= j < |idx| ==>
           var item, p := items[idx[j]], podcasts[j];
           && item.feedUrl == Some(p.feedUrl) && p.feedUrl != ""
           && p.id.None?
           && p.name == (if item.collectionName.Some? then item.collectionName.value else "Unknown")
           && p.artist == (if item.artistName.Some? then item.artistName.value else "Unknown")
           && p.artworkUrl == (if item.artworkUrl600.Some? then item.artworkUrl600.value else "")
           && p.genre == GenreName(if item.primaryGenreName.Some? then item.primaryGenreName.value else "Unknown")
  {
    FilterMapAt(ItunesItems(response), HasFeedUrl, FinderSummary);
  }

  /**
   * The two iTunes normalisers keep the same items in the same order and agree on every field
   * but `id` and the default genre.
   */
  lemma {:induction false} AgreesWithItunes(response: ItunesResponse)
    ensures var finder, itunes := SearchResults(response), Itunes.SearchResults(response);
      && |finder| == |itunes|
      && forall j :: 0 <= j < |finder| ==>
           && finder[j].name == itunes[j].name && finder[j].artist == itunes[j].artist
           && finder[j].feedUrl == itunes[j].feedUrl && finder[j].artworkUrl == itunes[j].artworkUrl
           && (itunes[j].genre.GenreName? ==> finder[j].genre == itunes[j].genre)
  {
    var items := ItunesItems(response);
    FilterMapAt(items, HasFeedUrl, FinderSummary);
    FilterMapAt(items, HasFeedUrl, Itunes.ItunesSummary);
  }
}
