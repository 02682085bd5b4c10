/**
 * The result mapping of `Itunes.search_podcasts`: the iTunes Search API's `results` become
 * podcast summaries; items without a truthy `feedUrl` are skipped, missing fields are given
 * defaults, and a request that raises gives the empty list.
 */
module Itunes {
  import opened Wrappers
  import opened Sequences
  import opened Podcasts

  /** The summary built for an item that has a feed URL. */
  function ItunesSummary(item: ItunesItem): PodcastSummary
  {
    PodcastSummary(
      Some(IntToDecimal(item.artistId.GetOr(0))),
      item.collectionName.GetOr("Unknown"),
      item.artistName.GetOr("Unknown"),
      item.feedUrl.GetOr(""),
      item.artworkUrl600.GetOr(""),
      match item.primaryGenreName
      case Some(g) => GenreName(g)
      case None => GenreList([]))
  }

  /** What `search_podcasts` returns for the response its request produced. */
  function SearchResults(response: ItunesResponse): seq<PodcastSummary>
  {
    FilterMap(ItunesItems(response), HasFeedUrl, ItunesSummary)
  }

  /** The `for item in results.get('results', [])` loop, with `continue` for items without a feed URL. */
  method SearchPodcasts(response: ItunesResponse) returns (podcasts: seq<PodcastSummary>)
    ensures podcasts == SearchResults(response)
    ensures response.RequestFailed? || response.results.None? ==> podcasts == []
    ensures forall j :: 0 <= j < |podcasts| ==> podcasts[j].feedUrl != "" && podcasts[j].id.Some?
    ensures |podcasts| <= |ItunesItems(response)|
  {
    if response.RequestFailed? {
      return [];
    }
    var items := response.results.GetOr([]);
    podcasts := [];
    for i := 0 to |items|
      invariant podcasts == FilterMap(items[..i], HasFeedUrl, ItunesSummary)
      invariant forall j :: 0 <= j < |podcasts| ==> podcasts[j].feedUrl != "" && podcasts[j].id.Some?
    {
      var item := items[i];
      assert items[..i + 1][..i] == items[..i];
      if !(item.feedUrl.Some? && item.feedUrl.value != "") {
        continue;
      }
      var genre := if item.primaryGenreName.Some? then GenreName(item.primaryGenreName.value) else GenreList([]);
      var podcast := PodcastSummary(
        Some(IntToDecimal(item.artistId.GetOr(0))),
        item.collectionName.GetOr("Unknown"),
        item.artistName.GetOr("Unknown"),
        item.feedUrl.value,
        item.artworkUrl600.GetOr(""),
        genre);
      podcasts := podcasts + [podcast];
    }
    assert items[..|items|] == items;
  }

  /**
   * The summaries are the items with a truthy `feedUrl`, in order (`KeptIndices` names the item
   * behind each summary), each carrying that `feedUrl`, `'Unknown'` for a missing name or
   * artist, `''` for missing artwork, the empty list for a missing genre, and the decimal
   * `artistId`, `"0"` when it is missing.
   */
  lemma {:induction false} SearchResultsFromItems(response: ItunesResponse)
    ensures var podcasts, items := SearchResults(response), ItunesItems(response);
      var idx := KeptIndices(items, HasFeedUrl);
      && |podcasts| == |idx|
      && (forall j, j' :: 0 <= j < j' < |idx| ==> idx[j] < idx[j'])
      && (forall i :: 0 <= i < |items| && HasFeedUrl(items[i]) ==> i in idx)
      && forall j :: 0 <= j < |idx| ==>
           var item, p := items[idx[j]], podcasts[j];
           && item.feedUrl == Some(p.feedUrl) && p.feedUrl != ""
           && p.id == Some(if item.artistId.Some? then IntToDecimal(item.artistId.value) else "0")
           && p.name == (if item.collectionName.Some? then item.collectionName.value else "Unknown")
           && p.artist == (if item.artistName.Some? then item.artistName.value else "Unknown")
           && p.artworkUrl == (if item.artworkUrl600.Some? then item.artworkUrl600.value else "")
           && p.genre == (if item.primaryGenreName.Some? then GenreName(item.primaryGenreName.value) else GenreList([]))
  {
    var items := ItunesItems(response);
    FilterMapAt(items, HasFeedUrl, ItunesSummary);
    ZeroIsDecimal();
  }

  /** Only the item with a non-empty feed URL survives, with every missing field defaulted. */
  lemma SkipsItemsWithoutFeedUrlExample()
    ensures var bare := ItunesItem(None, None, None, Some("http://x/rss"), None, None);
      var noUrl := ItunesItem(Some(7), Some("A"), Some("B"), None, None, None);
      var emptyUrl := ItunesItem(Some(8), Some("C"), Some("D"), Some(""), None, None);
      SearchResults(Decoded(Some([noUrl, bare, emptyUrl])))
        == [PodcastSummary(Some("0"), "Unknown", "Unknown", "http://x/rss", "", GenreList([]))]
  {
    var bare := ItunesItem(None, None, None, Some("http://x/rss"), None, None);
    var noUrl := ItunesItem(Some(7), Some("A"), Some("B"), None, None, None);
    var emptyUrl := ItunesItem(Some(8), Some("C"), Some("D"), Some(""), None, None);
    ZeroIsDecimal();
    var items := [noUrl, bare, emptyUrl];
    assert items[..2] == [noUrl, bare] && [noUrl, bare][..1] == [noUrl] && [noUrl][..0] == [];
    assert FilterMap([noUrl], HasFeedUrl, ItunesSummary) == [];
    assert FilterMap([noUrl, bare], HasFeedUrl, ItunesSummary) == [ItunesSummary(bare)];
  }
}
