/**
 * The episode downloader (`PodcastDownloader`): a download directory created at construction,
 * and `download_episode`, which streams an HTTP response body into a file under that directory
 * and reports progress to an optional callback.
 *
 * The HTTP response is a value (status, Content-Length, the body's chunks, and whether the
 * stream breaks off after them); the filesystem is a `Disk` object whose file map the download
 * updates in place; the callback is the ghost sequence of the values it would receive.
 */
module Downloader {
  import opened Wrappers
  import opened Sequences
  import opened FilenameSanitizer

  /** A streamed HTTP response as the downloader sees it. */
  datatype Response = Response(
    ok: bool,                       // the request succeeded and `raise_for_status` did not raise
    contentLength: Option<nat>,     // the Content-Length header (section 8.6 of RFC 9110), if sent
    chunks: seq<seq<bv8>>,          // the body, as `iter_content` yields it
    breaksOff: bool)                // reading further raises a `RequestException`

  /** `download_episode`'s outcome: a path, `None`, or an `OSError` it does not catch. */
  datatype DownloadResult = Saved(path: string) | Failed | DirectoryNotWritable

  /** `int(response.headers.get('content-length', 0))`. */
  function TotalSize(response: Response): (n: nat)
    ensures response.contentLength.None? ==> n == 0
    ensures response.contentLength.Some? ==> n == response.contentLength.value
  {
    response.contentLength.GetOr(0)
  }

  /**
   * `Path(dir) / name` for a name holding no `/` (a sanitised name) and a directory already
   * in pathlib's normal form, as a string: pathlib drops an empty or `.` component, so the
   * path is then the directory itself.
   */
  function JoinPath(dir: string, name: string): (p: string)
    ensures p == dir <==> name == "" || name == "."
    ensures p != dir ==> |p| == |dir| + 1 + |name| && p[..|dir|] == dir && p[|dir|] == '/' && p[|dir| + 1..] == name
  {
    if name == "" || name == "." then dir else dir + "/" + name
  }

  /** Where `download_episode` writes an episode given the caller's file name. */
  function DestinationPath(dir: string, filename: string): string
  {
    JoinPath(dir, Sanitized(filename))
  }

  /** The body chunks that are not empty, which `if chunk:` lets through. */
  function NonEmptyChunks(chunks: seq<seq<bv8>>): seq<seq<bv8>>
  {
    if chunks == [] then []
    else NonEmptyChunks(chunks[..|chunks| - 1]) + (if chunks[|chunks| - 1] != [] then [chunks[|chunks| - 1]] else [])
  }

  /** `(downloaded / total_size) * 100`, over the reals. */
  function Percent(downloaded: nat, total: nat): real
    requires total > 0
  {
    (downloaded as real / total as real) * 100.0
  }

  /** The values the callback receives: one per non-empty chunk, after that chunk is written. */
  function ProgressLog(chunks: seq<seq<bv8>>, total: nat): seq<real>
    requires total > 0
  {
    if chunks == [] then []
    else
      ProgressLog(chunks[..|chunks| - 1], total)
      + (if chunks[|chunks| - 1] != [] then [Percent(|Flatten(chunks)|, total)] else [])
  }

  /**
   * What the file holds once `download_episode` has opened it and finished, or raised, reading:
   * always a prefix of the body; the whole body unless `response.content` raises, in which
   * case nothing was written.
   */
  function WrittenBytes(response: Response): (bytes: seq<bv8>)
    ensures bytes <= Flatten(response.chunks)
    ensures bytes == [] <==> Flatten(response.chunks) == [] || (TotalSize(response) == 0 && response.breaksOff)
    ensures TotalSize(response) > 0 || !response.breaksOff ==> bytes == Flatten(response.chunks)
  {
    if TotalSize(response) == 0 && response.breaksOff then []  // `response.content` raises before the write
    else Flatten(response.chunks)
  }

  /** The callback invocations of a download that opened its file. */
  function ProgressCalls(response: Response, hasCallback: bool): seq<real>
  {
    if hasCallback && TotalSize(response) > 0 then ProgressLog(response.chunks, TotalSize(response)) else []
  }

  /** Whether `download_episode` gets as far as opening the destination file. */
  predicate OpensFile(response: Response, path: string, dirs: set<string>)
  {
    response.ok && path !in dirs
  }

  /** The value `download_episode` returns, or the exception it lets through. */
  function Outcome(response: Response, path: string, dirs: set<string>): (r: DownloadResult)
    ensures r.Saved? <==> response.ok && path !in dirs && !response.breaksOff
    ensures r.Saved? ==> r.path == path
    ensures r.DirectoryNotWritable? <==> response.ok && path in dirs
    ensures r.Failed? <==> !response.ok || (path !in dirs && response.breaksOff)
  {
    if !response.ok then Failed
    else if path in dirs then DirectoryNotWritable
    else if response.breaksOff then Failed
    else Saved(path)
  }

  /** Skipping empty chunks loses no bytes: the file is the body byte for byte. */
  lemma {:induction false} FlattenNonEmptyChunks(chunks: seq<seq<bv8>>)
    ensures Flatten(NonEmptyChunks(chunks)) == Flatten(chunks)
  {
    if chunks != [] {
      var init, last := chunks[..|chunks| - 1], chunks[|chunks| - 1];
      FlattenNonEmptyChunks(init);
      if last != [] {
        var ne := NonEmptyChunks(init) + [last];
        assert ne[..|ne| - 1] == NonEmptyChunks(init);
      } else {
        assert NonEmptyChunks(chunks) == NonEmptyChunks(init) + [] == NonEmptyChunks(init);
        assert Flatten(chunks) == Flatten(init) + [] == Flatten(init);
      }
    }
  }

  /** Percentages grow strictly with the number of bytes downloaded. */
  lemma PercentIncreases(a: nat, b: nat, total: nat)
    requires total > 0 && a < b
    ensures Percent(a, total) < Percent(b, total)
  {
    var t := total as real;
    assert a as real / t < b as real / t;
  }

  /** The percentage is exactly 100 when, and only when, the declared size has been downloaded. */
  lemma PercentIs100(downloaded: nat, total: nat)
    requires total > 0
    ensures Percent(downloaded, total) == 100.0 <==> downloaded == total
  {
    var t := total as real;
    if Percent(downloaded, total) == 100.0 {
      assert downloaded as real / t == 1.0;
      assert downloaded as real == t;
    }
  }

  /**
   * The callback is called once per non-empty chunk, and the `k`-th call receives the number
   * of bytes in the first `k + 1` non-empty chunks as a percentage of the declared size.
   */
  lemma {:induction false} ProgressLogAt(chunks: seq<seq<bv8>>, total: nat)
    requires total > 0
    ensures |ProgressLog(chunks, total)| == |NonEmptyChunks(chunks)|
    ensures forall k :: 0 <= k < |ProgressLog(chunks, total)| ==>
              ProgressLog(chunks, total)[k] == Percent(|Flatten(NonEmptyChunks(chunks)[..k + 1])|, total)
  {
    if chunks != [] {
      var init, last := chunks[..|chunks| - 1], chunks[|chunks| - 1];
      ProgressLogAt(init, total);
      var neInit, ne := NonEmptyChunks(init), NonEmptyChunks(chunks);
      var log := ProgressLog(chunks, total);
      if last != [] {
        assert ne == neInit + [last];
        assert log == ProgressLog(init, total) + [Percent(|Flatten(chunks)|, total)];
        forall k | 0 <= k < |log|
          ensures log[k] == Percent(|Flatten(ne[..k + 1])|, total)
        {
          if k < |neInit| {
            assert ne[..k + 1] == neInit[..k + 1];
          } else {
            assert ne[..k + 1] == ne;
            FlattenNonEmptyChunks(chunks);
          }
        }
      } else {
        assert ne == neInit + [] == neInit;
        assert log == ProgressLog(init, total) + [] == ProgressLog(init, total);
      }
    }
  }

  /**
   * Every reported value is positive and at most the percentage of the whole body, and the
   * values strictly increase: they are never clamped, but never repeat either.
   */
  lemma {:induction false} ProgressLogIncreases(chunks: seq<seq<bv8>>, total: nat)
    requires total > 0
    ensures forall k :: 0 <= k < |ProgressLog(chunks, total)| ==>
              0.0 < ProgressLog(chunks, total)[k] <= Percent(|Flatten(chunks)|, total)
    ensures forall i, j :: 0 <= i < j < |ProgressLog(chunks, total)| ==>
              ProgressLog(chunks, total)[i] < ProgressLog(chunks, total)[j]
  {
    if chunks != [] {
      var init, last := chunks[..|chunks| - 1], chunks[|chunks| - 1];
      ProgressLogIncreases(init, total);
      var before := |Flatten(init)|;
      assert |Flatten(chunks)| == before + |last|;
      var prev := ProgressLog(init, total);
      if last != [] {
        var p := Percent(before + |last|, total);
        assert ProgressLog(chunks, total) == prev + [p];
        PercentIncreases(before, before + |last|, total);
        PercentIncreases(0, before + |last|, total);
        assert Percent(0, total) == 0.0;
        AppendAbove(prev, Percent(before, total), p);
      } else {
        assert ProgressLog(chunks, total) == prev + [] == prev;
      }
    }
  }

  /**
   * Appending a value above the bound of a strictly increasing sequence of values in
   * `(0, bound]` gives a strictly increasing sequence of values in `(0, x]`.
   */
  lemma AppendAbove(xs: seq<real>, bound: real, x: real)
    requires forall k :: 0 <= k < |xs| ==> 0.0 < xs[k] <= bound
    requires forall i, j :: 0 <= i < j < |xs| ==> xs[i] < xs[j]
    requires 0.0 < x && bound < x
    ensures forall k :: 0 <= k < |xs + [x]| ==> 0.0 < (xs + [x])[k] <= x
    ensures forall i, j :: 0 <= i < j < |xs + [x]| ==> (xs + [x])[i] < (xs + [x])[j]
  {
  }

  /**
   * The callback is called at all exactly when the body has a byte; its last value is the
   * percentage of the whole body, which is 100 exactly when the body has the declared size.
   */
  lemma {:induction false} ProgressLogLast(chunks: seq<seq<bv8>>, total: nat)
    requires total > 0
    ensures ProgressLog(chunks, total) == [] <==> Flatten(chunks) == []
    ensures var log := ProgressLog(chunks, total);
      log != [] ==> log[|log| - 1] == Percent(|Flatten(chunks)|, total)
                    && (log[|log| - 1] == 100.0 <==> |Flatten(chunks)| == total)
  {
    if chunks != [] {
      var init, last := chunks[..|chunks| - 1], chunks[|chunks| - 1];
      ProgressLogLast(init, total);
      if last == [] {
        assert Flatten(chunks) == Flatten(init) + [];
      }
      PercentIs100(|Flatten(chunks)|, total);
    }
  }

  /**
   * A download whose body is as long as its Content-Length is saved with exactly that many
   * bytes, and the last callback value is 100.
   */
  lemma CompleteDownload(response: Response, path: string, dirs: set<string>)
    requires response.ok && !response.breaksOff && path !in dirs
    requires TotalSize(response) > 0 && |Flatten(response.chunks)| == TotalSize(response)
    ensures Outcome(response, path, dirs) == Saved(path)
    ensures |WrittenBytes(response)| == TotalSize(response)
    ensures var log := ProgressCalls(response, true);
      log != [] && log[|log| - 1] == 100.0
  {
    ProgressLogLast(response.chunks, TotalSize(response));
  }

  /** Content-Length 1024 delivered as two chunks of 512 bytes: the callback gets 50 and then 100. */
  lemma TwoHalvesExample()
    ensures var half := seq(512, _ => 0 as bv8);
      ProgressLog([half, half], 1024) == [50.0, 100.0]
  {
    var half := seq(512, _ => 0 as bv8);
    assert [half, half][..1] == [half] && [half][..0] == [];
    assert Flatten([half]) == half;
    assert |Flatten([half, half])| == 1024;
    assert Percent(512, 1024) == 50.0;
    assert Percent(1024, 1024) == 100.0;
    assert ProgressLog([half], 1024) == [] + [Percent(512, 1024)];
    assert ProgressLog([half, half], 1024) == ProgressLog([half], 1024) + [Percent(1024, 1024)];
  }

  /** A server that sends more than it declared drives the percentage past 100. */
  lemma OverrunExample()
    ensures ProgressLog([[0], [0]], 1) == [100.0, 200.0]
  {
    var one: seq<bv8> := [0];
    assert [one, one][..1] == [one] && [one][..0] == [];
    assert Flatten([one]) == one;
    assert |Flatten([one, one])| == 2;
  }

  /** The sanitised name goes straight under the download directory. */
  lemma DestinationExample()
    ensures DestinationPath("downloads", "My: Show/1.mp3") == "downloads/My_ Show_1.mp3"
  {
    SanitizedExample();
  }

  /**
   * A name that sanitises to nothing denotes the download directory itself, which cannot be
   * opened for writing: the `OSError` escapes `download_episode`.
   */
  lemma BlankNameExample(response: Response, dirs: set<string>)
    requires response.ok && "downloads" in dirs
    ensures Outcome(response, DestinationPath("downloads", " \n "), dirs) == DirectoryNotWritable
  {
    SanitizedBlankExample();
  }

  /** The filesystem: regular files with their contents, and directories. */
  class Disk {
    var files: map<string, seq<bv8>>
    var dirs: set<string>

    constructor (files: map<string, seq<bv8>>, dirs: set<string>)
      ensures this.files == files && this.dirs == dirs
    {
      this.files := files;
      this.dirs := dirs;
    }

    /** `Path(path).mkdir(exist_ok=True)`. */
    method MakeDir(path: string)
      modifies this
      ensures dirs == old(dirs) + {path} && files == old(files)
    {
      dirs := dirs + {path};
    }

    /** `open(path, 'wb')`: creates or truncates a file; a directory cannot be opened so. */
    method OpenForWriting(path: string) returns (writable: bool)
      modifies this
      ensures writable == (path !in old(dirs))
      ensures files == if writable then old(files)[path := []] else old(files)
      ensures dirs == old(dirs)
    {
      writable := path !in dirs;
      if writable {
        files := files[path := []];
      }
    }

    /** `f.write(data)` on a file opened for writing. */
    method Append(path: string, data: seq<bv8>)
      requires path in files
      modifies this
      ensures files == old(files)[path := old(files)[path] + data]
      ensures dirs == old(dirs)
    {
      files := files[path := files[path] + data];
    }
  }

  class PodcastDownloader {
    const downloadDir: string
    const disk: Disk

    ghost predicate Valid()
      reads this, disk
    {
      downloadDir in disk.dirs
    }

    /** `PodcastDownloader(download_dir)`: remembers the directory and creates it if absent. */
    constructor (downloadDir: string, disk: Disk)
      modifies disk
      ensures Valid()
      ensures this.downloadDir == downloadDir && this.disk == disk
      ensures disk.dirs == old(disk.dirs) + {downloadDir} && disk.files == old(disk.files)
    {
      this.downloadDir := downloadDir;
      this.disk := disk;
      new;
      disk.MakeDir(downloadDir);
    }

    /**
     * `download_episode(url, filename, callback)` for the response the request produced.
     * A failed request returns `None` before any file is opened. Otherwise the sanitised name
     * is opened under the download directory; with no or zero Content-Length the whole body is
     * written at once and the callback is never called; otherwise each non-empty chunk is
     * appended and the callback, if given, receives the percentage downloaded so far.
     */
    method DownloadEpisode(response: Response, filename: string, hasCallback: bool)
      returns (result: DownloadResult, ghost progress: seq<real>)
      requires Valid()
      modifies disk
      ensures Valid() && disk.dirs == old(disk.dirs)
      ensures !response.ok ==> result == Failed && disk.files == old(disk.files) && progress == []
      ensures TotalSize(response) == 0 || !hasCallback ==> progress == []
      ensures var path := DestinationPath(downloadDir, filename);
        && result == Outcome(response, path, old(disk.dirs))
        && disk.files == (if OpensFile(response, path, old(disk.dirs))
                          then old(disk.files)[path := WrittenBytes(response)] else old(disk.files))
        && progress == (if OpensFile(response, path, old(disk.dirs)) then ProgressCalls(response, hasCallback) else [])
    {
      progress := [];
      if !response.ok {
        return Failed, progress;
      }
      var name := SanitizeFilename(filename);
      var path := JoinPath(downloadDir, name);
      var totalSize := response.contentLength.GetOr(0);
      var writable := disk.OpenForWriting(path);
      if !writable {
        return DirectoryNotWritable, progress;
      }
      if totalSize == 0 {
        if response.breaksOff {
          return Failed, progress;
        }
        disk.Append(path, Flatten(response.chunks));
        assert [] + Flatten(response.chunks) == Flatten(response.chunks);
      } else {
        progress := StreamChunks(path, response.chunks, totalSize, hasCallback);
        if response.breaksOff {
          return Failed, progress;
        }
      }
      result := Saved(path);
    }

    /**
     * The chunk loop of `download_episode` for a known, positive size: every non-empty chunk is
     * appended to the file just opened, and the callback, if given, then receives
     * `downloaded / total_size * 100`.
     */
    method StreamChunks(path: string, chunks: seq<seq<bv8>>, totalSize: nat, hasCallback: bool)
      returns (ghost progress: seq<real>)
      requires totalSize > 0
      requires path in disk.files && disk.files[path] == []
      modifies disk
      ensures disk.dirs == old(disk.dirs)
      ensures disk.files == old(disk.files)[path := Flatten(chunks)]
      ensures progress == if hasCallback then ProgressLog(chunks, totalSize) else []
    {
      progress := [];
      var downloaded: nat := 0;
      for i := 0 to |chunks|
        invariant disk.dirs == old(disk.dirs)
        invariant disk.files == old(disk.files)[path := Flatten(chunks[..i])]
        invariant downloaded == |Flatten(chunks[..i])|
        invariant progress == if hasCallback then ProgressLog(chunks[..i], totalSize) else []
      {
        var chunk := chunks[i];
        assert chunks[..i + 1][..i] == chunks[..i];
        assert Flatten(chunks[..i + 1]) == Flatten(chunks[..i]) + chunk;
        if chunk != [] {
          disk.Append(path, chunk);
          downloaded := downloaded + |chunk|;
          if hasCallback {
            progress := progress + [Percent(downloaded, totalSize)];
          }
        } else {
          assert Flatten(chunks[..i]) + chunk == Flatten(chunks[..i]);
        }
      }
      assert chunks[..|chunks|] == chunks;
    }
  }
}
