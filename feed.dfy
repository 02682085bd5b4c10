/**
 * Feed normalisation of the episode downloader (`PodcastDownloader.get_feed`): the entries
 * of an already parsed feed become episode records. An entry is kept when the first of its
 * links whose type starts with `audio/` has a non-empty href; the first entry without a
 * title raises, and the exception turns the whole result into the empty list.
 */
module Feed {
  import opened Wrappers
  import opened Sequences

  /** A link or enclosure of a feed entry: its declared media type, if any, and its target. */
  datatype Link = Link(linkType: Option<string>, href: string)

  /** A parsed feed entry; every field but the links may be missing. */
  datatype Entry = Entry(
    title: Option<string>,
    description: Option<string>,
    published: Option<string>,
    itunesDuration: Option<string>,
    links: seq<Link>)

  /** The episode record built from an entry. */
  datatype Episode = Episode(
    title: string,
    description: string,
    published: string,
    duration: string,
    url: string)

  /** `link.get('type', '').startswith('audio/')`. */
  predicate IsAudio(link: Link)
  {
    "audio/" <= link.linkType.GetOr("")
  }

  /** The first audio link, at which the link loop of `get_feed` stops. */
  function FirstAudioLink(links: seq<Link>): (r: Option<Link>)
    ensures r.None? <==> forall k :: 0 <= k < |links| ==> !IsAudio(links[k])
    ensures r.Some? ==> exists k :: 0 <= k < |links| && links[k] == r.value && IsAudio(links[k])
                          && forall j :: 0 <= j < k ==> !IsAudio(links[j])
  {
    if links == [] then None
    else if IsAudio(links[0]) then Some(links[0])
    else
      var rest := FirstAudioLink(links[1..]);
      assert forall k :: 1 <= k < |links| ==> links[k] == links[1..][k - 1];
      rest
  }

  /** The URL the episode record ends up with: the first audio link's href, or nothing. */
  function AudioUrl(e: Entry): Option<string>
  {
    match FirstAudioLink(e.links)
    case Some(link) => Some(link.href)
    case None => None
  }

  /** `if episode['url']`: the entry has an audio URL and it is not empty. */
  predicate HasAudioUrl(e: Entry)
  {
    AudioUrl(e).Some? && AudioUrl(e).value != ""
  }

  /** The record for a titled entry, with the optional fields defaulted to `''`. */
  function EpisodeOf(e: Entry): Episode
  {
    Episode(e.title.GetOr(""), e.description.GetOr(""), e.published.GetOr(""),
            e.itunesDuration.GetOr(""), AudioUrl(e).GetOr(""))
  }

  predicate AllTitled(entries: seq<Entry>)
  {
    forall i :: 0 <= i < |entries| ==> entries[i].title.Some?
  }

  /** What `get_feed` returns for the parsed entries. */
  function FeedEpisodes(entries: seq<Entry>): seq<Episode>
  {
    if AllTitled(entries) then FilterMap(entries, HasAudioUrl, EpisodeOf) else []
  }

  /** The entry loop of `get_feed`, with its link-scanning loop that stops at the first audio link. */
  method GetFeed(entries: seq<Entry>) returns (episodes: seq<Episode>)
    ensures episodes == FeedEpisodes(entries)
    ensures forall j :: 0 <= j < |episodes| ==> episodes[j].url != ""
    ensures |episodes| <= |entries|
    ensures (exists i :: 0 <= i < |entries| && entries[i].title.None?) ==> episodes == []
  {
    episodes := [];
    for i := 0 to |entries|
      invariant AllTitled(entries[..i])
      invariant episodes == FilterMap(entries[..i], HasAudioUrl, EpisodeOf)
      invariant forall j :: 0 <= j < |episodes| ==> episodes[j].url != ""
    {
      var entry := entries[i];
      if entry.title.None? {
        // `entry.title` raises; `except Exception` returns [].
        assert !AllTitled(entries);
        return [];
      }
      var url: Option<string> := None;
      var k := 0;
      while k < |entry.links|
        invariant 0 <= k <= |entry.links|
        invariant forall j :: 0 <= j < k ==> !IsAudio(entry.links[j])
      {
        if IsAudio(entry.links[k]) {
          url := Some(entry.links[k].href);
          break;
        }
        k := k + 1;
      }
      assert url == AudioUrl(entry);
      assert entries[..i + 1][..i] == entries[..i];
      if url.Some? && url.value != "" {
        episodes := episodes + [Episode(entry.title.value, entry.description.GetOr(""),
                                        entry.published.GetOr(""), entry.itunesDuration.GetOr(""),
                                        url.value)];
      }
    }
    assert entries[..|entries|] == entries;
  }

  /**
   * When every entry has a title, the episodes are exactly the entries whose first audio link
   * has a non-empty href, in entry order: `KeptIndices` names the entry behind each episode.
   * Each episode carries its entry's title, the href of that first audio link, and `''` for a
   * missing description, publication date or duration.
   */
  lemma {:induction false} FeedEpisodesAreKeptEntries(entries: seq<Entry>)
    requires AllTitled(entries)
    ensures var episodes, idx := FeedEpisodes(entries), KeptIndices(entries, HasAudioUrl);
      && |episodes| == |idx|
      && (forall j, j' :: 0 <= j < j' < |idx| ==> idx[j] < idx[j'])
      && (forall i :: 0 <= i < |entries| && HasAudioUrl(entries[i]) ==> i in idx)
      && forall j :: 0 <= j < |idx| ==>
           var e := entries[idx[j]];
           && idx[j] < |entries|
           && FirstAudioLink(e.links).Some?
           && episodes[j].url == FirstAudioLink(e.links).value.href != ""
           && episodes[j].title == e.title.value
           && episodes[j].description == (if e.description.Some? then e.description.value else "")
           && episodes[j].published == (if e.published.Some? then e.published.value else "")
           && episodes[j].duration == (if e.itunesDuration.Some? then e.itunesDuration.value else "")
  {
    FilterMapAt(entries, HasAudioUrl, EpisodeOf);
  }

  /** An entry with no audio link, or whose first audio link has an empty href, yields no episode. */
  lemma {:induction false} DroppedEntries(entries: seq<Entry>, i: nat)
    requires i < |entries| && AllTitled(entries)
    requires FirstAudioLink(entries[i].links).None? || FirstAudioLink(entries[i].links).value.href == ""
    ensures forall j :: 0 <= j < |KeptIndices(entries, HasAudioUrl)| ==> KeptIndices(entries, HasAudioUrl)[j] != i
    ensures |FeedEpisodes(entries)| < |entries|
  {
    var idx := KeptIndices(entries, HasAudioUrl);
    FilterMapAt(entries, HasAudioUrl, EpisodeOf);
    IncreasingIndicesCover(idx, |entries|);
    assert i !in idx;
  }

  /** A feed of three entries, two with an `audio/mpeg` enclosure and one with only a web page link. */
  lemma ThreeEntryExample()
    ensures var mp3 := Some("audio/mpeg");
      var entries := [
        Entry(Some("One"), None, None, None, [Link(mp3, "http://x/1.mp3")]),
        Entry(Some("Two"), None, None, None, [Link(Some("text/html"), "http://x/2")]),
        Entry(Some("Three"), Some("d"), None, Some("10:00"), [Link(None, "http://x/3"), Link(mp3, "http://x/3.mp3")])];
      FeedEpisodes(entries) == [
        Episode("One", "", "", "", "http://x/1.mp3"),
        Episode("Three", "d", "", "10:00", "http://x/3.mp3")]
  {
    var mp3 := Some("audio/mpeg");
    var l3 := [Link(None, "http://x/3"), Link(mp3, "http://x/3.mp3")];
    assert ("audio/mpeg")[..6] == "audio/";
    assert ("text/html")[..6][0] == 't';
    assert !IsAudio(Link(Some("text/html"), "http://x/2"));
    assert !IsAudio(l3[0]) && IsAudio(l3[1]);
    assert FirstAudioLink(l3) == Some(l3[1]) by {
      assert l3[1..] == [l3[1]];
    }
    var e1 := Entry(Some("One"), None, None, None, [Link(mp3, "http://x/1.mp3")]);
    var e2 := Entry(Some("Two"), None, None, None, [Link(Some("text/html"), "http://x/2")]);
    var e3 := Entry(Some("Three"), Some("d"), None, Some("10:00"), l3);
    assert HasAudioUrl(e1) && EpisodeOf(e1) == Episode("One", "", "", "", "http://x/1.mp3");
    assert !HasAudioUrl(e2);
    assert HasAudioUrl(e3) && EpisodeOf(e3) == Episode("Three", "d", "", "10:00", "http://x/3.mp3");
    var entries := [e1, e2, e3];
    assert AllTitled(entries);
    assert [e1, e2, e3][..2] == [e1, e2] && [e1, e2][..1] == [e1] && [e1][..0] == [];
    assert FilterMap([e1], HasAudioUrl, EpisodeOf) == [EpisodeOf(e1)];
    assert FilterMap([e1, e2], HasAudioUrl, EpisodeOf) == [EpisodeOf(e1)];
    assert FilterMap(entries, HasAudioUrl, EpisodeOf) == [EpisodeOf(e1), EpisodeOf(e3)];
  }

  /** The link loop stops at the first audio link even when its href is empty. */
  lemma EmptyFirstAudioHrefExample()
    ensures var entry := Entry(Some("T"), None, None, None,
                               [Link(Some("audio/mpeg"), ""), Link(Some("audio/mpeg"), "http://x/t.mp3")]);
      FeedEpisodes([entry]) == []
  {
    assert ("audio/mpeg")[..6] == "audio/";
  }

  /** One entry without a title empties the whole list, even when other entries would be kept. */
  lemma UntitledEntryExample()
    ensures var good := Entry(Some("T"), None, None, None, [Link(Some("audio/mpeg"), "http://x/t.mp3")]);
      var untitled := Entry(None, None, None, None, [Link(Some("audio/mpeg"), "http://x/u.mp3")]);
      FeedEpisodes([good, untitled]) == []
  {
  }
}
