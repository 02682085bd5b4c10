/**
 * The podcast summary records the search providers return, the iTunes Search API items two
 * of them read, and Python's `str()` of an integer, which builds the iTunes summary's `id`.
 */
module Podcasts {
  import opened Wrappers

  /** A summary's `genre`: a single name, or a list of names (possibly the empty list). */
  datatype Genre = GenreName(name: string) | GenreList(names: seq<string>)

  /**
   * A podcast summary dictionary. `id` is `None` when the dictionary has no `id` key at all,
   * as in the results of `PodcastFeedFinder.search_podcast`.
   */
  datatype PodcastSummary = PodcastSummary(
    id: Option<string>,
    name: string,
    artist: string,
    feedUrl: string,
    artworkUrl: string,
    genre: Genre)

  /** One element of the iTunes Search API's `results` array: the keys the normalisers read. */
  datatype ItunesItem = ItunesItem(
    artistId: Option<int>,
    collectionName: Option<string>,
    artistName: Option<string>,
    feedUrl: Option<string>,
    artworkUrl600: Option<string>,
    primaryGenreName: Option<string>)

  /**
   * An iTunes search request: it raised a `RequestException` (no connection, a non-success
   * status, a body that is not JSON), or it gave a JSON object with or without `results`.
   */
  datatype ItunesResponse = RequestFailed | Decoded(results: Option<seq<ItunesItem>>)

  /** `results.get('results', [])`, where there are results at all. */
  function ItunesItems(response: ItunesResponse): seq<ItunesItem>
  {
    match response
    case RequestFailed => []
    case Decoded(results) => results.GetOr([])
  }

  /** `item.get('feedUrl')` is truthy: present and not the empty string. */
  predicate HasFeedUrl(item: ItunesItem)
  {
    item.feedUrl.Some? && item.feedUrl.value != ""
  }

  predicate IsDigit(c: char)
  {
    '0' <= c <= '9'
  }

  /** The decimal digits of `n`, most significant first, with no leading zero. */
  function NatToDecimal(n: nat): (s: string)
    ensures |s| > 0 && forall i :: 0 <= i < |s| ==> IsDigit(s[i])
    ensures |s| > 1 ==> s[0] != '0'
  {
    if n < 10 then [('0' as int + n) as char]
    else NatToDecimal(n / 10) + [('0' as int + n % 10) as char]
  }

  /** Python's `str(i)` for an integer: an optional minus sign, then the digits of `|i|`. */
  function IntToDecimal(i: int): (s: string)
    ensures |s| > 0 && (s[0] == '-' <==> i < 0)
    ensures var digits := if i < 0 then s[1..] else s;
      && 0 < |digits| && (forall k :: 0 <= k < |digits| ==> IsDigit(digits[k]))
      && (|digits| > 1 ==> digits[0] != '0')
      && DecimalValue(digits) == if i < 0 then -i else i
  {
    if i < 0 then
      DecimalRoundTrip(-i);
      var s := "-" + NatToDecimal(-i);
      assert s[1..] == NatToDecimal(-i);
      s
    else
      DecimalRoundTrip(i);
      NatToDecimal(i)
  }

  /** The number a string of decimal digits denotes. */
  function DecimalValue(s: string): nat
    requires forall i :: 0 <= i < |s| ==> IsDigit(s[i])
  {
    if s == [] then 0
    else
      assert IsDigit(s[|s| - 1]);
      DecimalValue(s[..|s| - 1]) * 10 + (s[|s| - 1] as int - '0' as int)
  }

  /** Reading the digits back gives the number: `int(str(n)) == n`. */
  lemma {:induction false} DecimalRoundTrip(n: nat)
    ensures DecimalValue(NatToDecimal(n)) == n
  {
    if n >= 10 {
      DecimalRoundTrip(n / 10);
      var s := NatToDecimal(n);
      assert s[..|s| - 1] == NatToDecimal(n / 10);
    }
  }

  /** `str(0)`, the id of an item without `artistId`. */
  lemma ZeroIsDecimal()
    ensures IntToDecimal(0) == "0"
  {
    assert ('0' as int + 0) as char == '0';
  }
}
