# Podcast episode pipeline, modelled in Dafny

This project models the core of a small podcast client. The client searches a catalogue for a
podcast, lists the episodes of its RSS feed, and downloads one episode's audio file with
progress reporting. The modelled parts are:

- **`PodcastDownloader`** (`src/podcast/itunes/downloader.py`):
  - the filename sanitiser, in `sanitizer.dfy`, module `FilenameSanitizer`;
  - feed normalisation, which turns parsed feed entries into episode records, in `feed.dfy`,
    module `Feed`;
  - the streamed, chunked download with its progress callback, in `downloader.dfy`, module
    `Downloader`. This file has a `Disk` class for the filesystem and a `PodcastDownloader`
    class whose constructor creates the download directory.
- **The search providers' result normalisers**. JSON search responses become podcast summary
  records: `Itunes` (`itunes.dfy`), `FeedFinder` (`feed_finder.dfy`) and `PodcastIndex`
  (`podcast_index.dfy`). They share the records in `Podcasts` (`podcasts.dfy`).
- **Helpers**: `wrappers.dfy` holds `Option`. `sequences.dfy` holds the generic filter-then-map,
  the positions it keeps, map, and concatenation of parts, with their lemmas.

Each Python loop is a Dafny method with a loop. Each method is proved against a
specification function, and the lemmas state what the Python code promises about that function:

- the sanitised name has no unsafe character, is no longer than the input, and sanitising is
  idempotent;
- episodes are exactly the entries whose first `audio/` link has a non-empty href, in entry
  order, and one entry without a title empties the whole list;
- the file receives the body byte for byte;
- the callback receives, for each non-empty chunk in turn, the running byte count as a
  percentage of Content-Length. These values strictly increase, are never clamped, and the
  last one is 100 exactly when the body has the declared length;
- each search normaliser keeps, in order, the items it should and fills in its defaults.

Inputs that come from I/O are parameters:

- the HTTP response is a `Response` value: status, optional Content-Length, the body's chunks,
  and whether the stream breaks off;
- a search response is a decoded JSON record;
- the feed is its parsed entries.

The callback is the ghost sequence of the values it is called with.

## Behaviour the model keeps

These are behaviours of the code that a reader might not expect.

- **Missing title.** An entry without a title gets no placeholder. `get_feed` reads
  `entry.title`, which raises, and its `except Exception` then returns `[]` for the whole feed
  (`Feed.UntitledEntryExample`).
- **Spaces in file names.** The sanitiser keeps spaces: `My: Show/1.mp3` becomes
  `My_ Show_1.mp3` (`FilenameSanitizer.SanitizedExample`).
- **Audio link with an empty href.** The link scan stops at the first `audio/` link. When that
  link's href is empty the entry is dropped, even if a later audio link has one
  (`Feed.EmptyFirstAudioHrefExample`).
- **Filesystem errors.** `download_episode` catches only `requests.RequestException`, so an
  `OSError` from `open` escapes instead of giving `None`. The model keeps one such case. A name
  that sanitises to `""` or `.` names the download directory itself, and opening that directory
  raises (`Downloader.BlankNameExample`, result `DirectoryNotWritable`).

## Model

| member | source | states |
|---|---|---|
| `FilenameSanitizer.InvalidCharsAre` | src/podcast/itunes/downloader.py:110 | the unsafe characters are exactly `< > : " / \ \| ? *` |
| `FilenameSanitizer.SanitizeFilename` | src/podcast/itunes/downloader.py:99-113 | the replace-per-character loop followed by `strip()` yields `Sanitized(filename)`, which contains no unsafe character and is no longer than the input |
| `FilenameSanitizer.StripIsSlice` | src/podcast/itunes/downloader.py:113 | `strip()` returns the slice of its input between the leading and the trailing whitespace (Python's `isspace` set), removes only whitespace, and leaves whitespace at neither end |
| `FilenameSanitizer.SanitizedHasNoInvalidChars` | src/podcast/itunes/downloader.py:110-113 | no character of the sanitised name is one of the unsafe characters |
| `FilenameSanitizer.SanitizedIsNoLonger` | src/podcast/itunes/downloader.py:111-113 | the sanitised name is at most as long as the input |
| `FilenameSanitizer.SanitizedFixesCleanNames` | src/podcast/itunes/downloader.py:110-113 | a name without unsafe characters and without whitespace at either end is returned unchanged |
| `FilenameSanitizer.SanitizedIsIdempotent` | src/podcast/itunes/downloader.py:110-113 | sanitising a sanitised name changes nothing |
| `FilenameSanitizer.SanitizedExample` | src/podcast/itunes/downloader.py:110-113 | `My: Show/1.mp3` becomes `My_ Show_1.mp3`: one underscore per unsafe character, and the space is kept |
| `FilenameSanitizer.SanitizedTrimsExample` | src/podcast/itunes/downloader.py:110-113 | `"  a?b\t"` becomes `a_b`: the replacement happens first, then whitespace is trimmed at both ends |
| `FilenameSanitizer.SanitizedBlankExample` | src/podcast/itunes/downloader.py:113 | a name of only whitespace becomes the empty name |
| `Feed.FirstAudioLink` | src/podcast/itunes/downloader.py:85-88 | the link the scan stops at: none when no link's type starts with `audio/`, otherwise the first link whose type does |
| `Feed.GetFeed` | src/podcast/itunes/downloader.py:61-97 | the entry loop with its breaking link scan returns `FeedEpisodes(entries)`; every episode has a non-empty URL; there are no more episodes than entries; an entry without a title makes the result `[]` |
| `Feed.FeedEpisodesAreKeptEntries` | src/podcast/itunes/downloader.py:75-91 | when all entries have titles, the episodes correspond one to one and in increasing entry order to exactly the entries whose first audio link has a non-empty href; each episode's URL is that href, its title is the entry's title, and a missing description, publication date or duration is `''` |
| `Feed.DroppedEntries` | src/podcast/itunes/downloader.py:85-91 | an entry with no audio link, or whose first audio link has an empty href, yields no episode, so there are fewer episodes than entries |
| `Feed.ThreeEntryExample` | src/podcast/itunes/downloader.py:75-91 | three entries, two with an `audio/mpeg` link and one with only `text/html`, give two episodes in entry order; a non-audio link before the audio one is skipped |
| `Feed.EmptyFirstAudioHrefExample` | src/podcast/itunes/downloader.py:85-91 | an entry whose first audio link has an empty href is dropped even though a later audio link has one |
| `Feed.UntitledEntryExample` | src/podcast/itunes/downloader.py:75-97 | one untitled entry empties the whole result, never a partial list |
| `Downloader.TotalSize` | src/podcast/itunes/downloader.py:40 | the declared size is the Content-Length value when the header is sent, and 0 when it is absent |
| `Downloader.JoinPath` | src/podcast/itunes/downloader.py:39 | for a download directory in pathlib's normal form, `Path(dir) / name` is the directory itself exactly when the name is empty or `.`; otherwise it is the directory, one `/`, then the name |
| `Downloader.WrittenBytes` | src/podcast/itunes/downloader.py:42-50 | the opened file always holds a prefix of the body. It holds the whole body unless Content-Length is zero or absent and `response.content` raises, and then it is left empty |
| `Downloader.Outcome` | src/podcast/itunes/downloader.py:36-59 | a failed status returns `None` before anything else is checked. Then a directory at the path escapes as an error from `open`. Then a stream that breaks off returns `None`. Only otherwise is the path returned |
| `Downloader.FlattenNonEmptyChunks` | src/podcast/itunes/downloader.py:47-49 | writing only the non-empty chunks writes the whole body |
| `Downloader.PercentIncreases` | src/podcast/itunes/downloader.py:52 | the percentage grows strictly with the downloaded byte count |
| `Downloader.PercentIs100` | src/podcast/itunes/downloader.py:52 | the percentage is 100 exactly when the downloaded count equals the declared size |
| `Downloader.ProgressLogAt` | src/podcast/itunes/downloader.py:45-53 | the callback is called once per non-empty chunk; the k-th value is (bytes in the first k+1 non-empty chunks) / total_size * 100 |
| `Downloader.ProgressLogIncreases` | src/podcast/itunes/downloader.py:45-53 | every value is positive and at most the whole body's percentage, and the values strictly increase |
| `Downloader.ProgressLogLast` | src/podcast/itunes/downloader.py:45-53 | the callback is called exactly when the body has a byte; the last value is the whole body's percentage, and it is 100 exactly when the body's length equals Content-Length |
| `Downloader.CompleteDownload` | src/podcast/itunes/downloader.py:36-55 | a successful response whose body has exactly Content-Length bytes is saved with that many bytes, and the last callback value is 100 |
| `Downloader.TwoHalvesExample` | src/podcast/itunes/downloader.py:47-53 | Content-Length 1024 sent as two 512-byte chunks gives the callback 50 and then 100 |
| `Downloader.OverrunExample` | src/podcast/itunes/downloader.py:50-53 | a body longer than declared drives the value past 100 (100 then 200); nothing clamps it |
| `Downloader.DestinationExample` | src/podcast/itunes/downloader.py:39 | the file goes directly under the download directory, under the sanitised name |
| `Downloader.BlankNameExample` | src/podcast/itunes/downloader.py:39-42 | a name that sanitises to nothing denotes the download directory, and opening it escapes as an error |
| `Downloader.Disk.MakeDir` | src/podcast/itunes/downloader.py:21 | `mkdir(exist_ok=True)` adds the directory, changes no file, and does not fail when the directory exists |
| `Downloader.Disk.OpenForWriting` | src/podcast/itunes/downloader.py:42 | `open(path, 'wb')` truncates the file to empty or creates it, and fails on a directory |
| `Downloader.Disk.Append` | src/podcast/itunes/downloader.py:44-49 | `f.write` appends to the open file and changes nothing else |
| `Downloader.PodcastDownloader.constructor` | src/podcast/itunes/downloader.py:13-21 | stores the download directory and creates it if absent, leaving files alone |
| `Downloader.PodcastDownloader.StreamChunks` | src/podcast/itunes/downloader.py:45-53 | the chunk loop leaves the file holding exactly the concatenated chunks, and logs `ProgressLog(chunks, total)` when a callback is given |
| `Downloader.PodcastDownloader.DownloadEpisode` | src/podcast/itunes/downloader.py:23-59 | a failed request returns `None` and writes and reports nothing. Otherwise the sanitised destination is opened. A directory there escapes as an error. With zero or no Content-Length the body is written whole and the callback is never called. Otherwise it is written chunk by chunk with the progress log above. A stream that breaks off returns `None`, leaving what was written. Directories and other files are unchanged |
| `Podcasts.NatToDecimal` | src/podcast/api/impl/itunes.py:53 | `str()` of a natural is a non-empty string of decimal digits with no leading zero |
| `Podcasts.IntToDecimal` | src/podcast/api/impl/itunes.py:53 | `str()` of an integer starts with `-` exactly when it is negative; the rest is non-empty decimal digits with no leading zero, and they denote its absolute value |
| `Podcasts.DecimalRoundTrip` | src/podcast/api/impl/itunes.py:53 | reading back the digits `str()` produces gives the number |
| `Podcasts.ZeroIsDecimal` | src/podcast/api/impl/itunes.py:53 | the default id `str(0)` is `"0"` |
| `Itunes.SearchPodcasts` | src/podcast/api/impl/itunes.py:42-66 | the result loop returns `SearchResults(response)`; a request exception or a response without `results` gives `[]`; every summary has a non-empty feed URL and an id; there are no more summaries than items |
| `Itunes.SearchResultsFromItems` | src/podcast/api/impl/itunes.py:48-60 | the summaries correspond one to one, in increasing item order, to exactly the items with a truthy `feedUrl`; each carries that `feedUrl`; a missing name or artist is `'Unknown'`, missing artwork `''`, a missing genre `[]`, and the id is `str(artistId)` or `"0"` |
| `Itunes.SkipsItemsWithoutFeedUrlExample` | src/podcast/api/impl/itunes.py:49-58 | items with a missing or empty `feedUrl` are skipped; a bare item gets every default |
| `FeedFinder.SearchPodcast` | src/podcast/feed_finder.py:38-61 | the result loop returns `SearchResults(response)`; a request exception or a response without `results` gives `[]`; every record has a non-empty feed URL and no `id` key |
| `FeedFinder.SearchResultsFromItems` | src/podcast/feed_finder.py:44-55 | the records correspond one to one, in increasing item order, to exactly the items with a truthy `feedUrl`, carry it, have no `id`, and default name, artist and genre to `'Unknown'` and artwork to `''` |
| `FeedFinder.AgreesWithItunes` | src/podcast/feed_finder.py:44-55 | this normaliser and the iTunes one keep the same items in the same order and agree on every field but `id` and the default genre |
| `PodcastIndex.CategoryNames` | src/podcast/api/impl/podcast_index.py:42 | `feed.get('categories', {}).values()` is empty without `categories`, and otherwise one name per category, in the object's order |
| `PodcastIndex.SearchPodcasts` | src/podcast/api/impl/podcast_index.py:28-45 | the feed loop returns `Search(response)`: a response without `feeds` gives `[]`, and a feed without `url` raises `KeyError` uncaught |
| `PodcastIndex.OneSummaryPerFeed` | src/podcast/api/impl/podcast_index.py:33-45 | when every feed has a `url`, there is exactly one summary per feed, in order, with nothing filtered. Each summary carries the feed's `url`. A missing title or author is `'Unknown'` and missing artwork is `''`. The id is `podcastGuid`, or `"0"` when it is missing. The genre lists the category names in order |

## Left out

- HTTP transport, `feedparser`, JSON decoding, URL quoting and the query parameters (`term`, `entity`, `media`, `limit`, timeout) are foreign library calls and I/O. Their results are inputs: a `Response`, the parsed entries, or a decoded response record.
- Error messages printed before returning `None` or `[]` are output only; the model keeps the returned values.
- `Downloader.PodcastDownloader.DownloadEpisode` does not model these filesystem failures: permission errors or a full disk. Its only modelled failure is opening a directory. Path strings are compared as given, and `..` is not resolved.
- `Downloader.JoinPath` does not model the normalisation `Path(dir)` applies to the directory string. It assumes the download directory is already in pathlib's normal form: non-empty, not `.`, and with no trailing `/`, doubled `/` or `.` component. For other directories the path differs from pathlib's: `Path("") / "x"` and `Path(".") / "x"` are `x`, and `Path("downloads/") / "x"` is `downloads/x`, where the model gives `/x`, `./x` and `downloads//x`. The path `DownloadEpisode` returns in `Saved` differs in the same way.
- `Downloader.Disk.MakeDir` does not model `mkdir(exist_ok=True)` raising. In Python it raises `FileExistsError` when a regular file is at the path, and it can also fail for lack of permission. The model adds the directory anyway, so that path can end up both as a file and as a directory.
- `Downloader.PodcastDownloader.DownloadEpisode` takes Content-Length as an optional natural. It does not model the `int()` parse of the header, which raises on a non-numeric value and accepts a negative one.
- `Downloader.PodcastDownloader.DownloadEpisode` computes progress over the reals, with no IEEE rounding.
- `Downloader.PodcastDownloader.DownloadEpisode` does not fix the chunk size at 8192. Its contract holds for every chunking of the body.
- `Downloader.PodcastDownloader.DownloadEpisode` models the callback only as the values it receives. The callback is caller code, so whatever it does is not modelled.
- `Feed.GetFeed` models every entry as having `links`, and every link as having `href`. So the only exception it models is a missing title. A missing `links`, or a missing `href` on the first audio link, would raise and give `[]` in the same way; a missing `href` on any other link is never read.
- The search records model each JSON field as present or absent, with the type the provider documents. Other JSON values are not modelled: `null`, a number where a string is expected, or a top-level value that is not an object. The iTunes `artistId` is an integer, `podcastGuid` is a string, and PodcastIndex `categories` is an ordered list of (key, name) pairs. Python's `dict_values` view of the categories becomes a list.
- `PodcastIndex.get_headers` is left out because it depends on the wall clock and SHA-1. Both copies of `get_podcast_by_id` are left out because they are thin HTTP wrappers. `src/podcast/podcast_index/PodcastIndex.py` is left out because it only returns `response.json()`.
- The command-line entry points (`src/podcast/__main__.py`, `src/podcast/podcast_index/__main__.py`) are user interface. The abstract `FeedFinder` interface (`src/podcast/api/feed_finder.py`) has no behaviour. None of them is part of this model.
