/** `download_video` and `_download_thread`: the file name built from the
    form, the path it is saved under, the URL handed to yt-dlp and the status
    line the download ends with. The download, the temporary directory and
    the copy are not modelled; whether they produced a file is an input. */
module Download {
  import opened Wrappers
  import opened Text
  import opened Search

  /** The characters the file name may not contain. */
  predicate Unsafe(c: char) { c == '/' || c == '\\' || c == ':' }

  /** `.replace("/", "-").replace("\\", "-").replace(":", "-")`: every unsafe
      character becomes a dash and every other character is kept, in place. */
  function Sanitize(s: string): (r: string)
    ensures |r| == |s|
    ensures forall i :: 0 <= i < |s| ==> r[i] == if Unsafe(s[i]) then '-' else s[i]
  {
    var a := ReplaceAll(s, "/", "-");
    var b := ReplaceAll(a, "\\", "-");
    var c := ReplaceAll(b, ":", "-");
    ReplaceSingleChar(s, '/', '-');
    ReplaceSingleChar(a, '\\', '-');
    ReplaceSingleChar(b, ':', '-');
    c
  }

  /** No unsafe character is left. */
  lemma SanitizeSafe(s: string)
    ensures forall i :: 0 <= i < |Sanitize(s)| ==> !Unsafe(Sanitize(s)[i])
  {
  }

  /** Sanitising a sanitised name changes nothing. */
  lemma SanitizeIdempotent(s: string)
    ensures Sanitize(Sanitize(s)) == Sanitize(s)
  {
    var r := Sanitize(s);
    assert forall i :: 0 <= i < |r| ==> Sanitize(r)[i] == r[i];
  }

  /** A name with nothing unsafe in it is kept as it is. */
  lemma SanitizeKeepsSafe(s: string)
    requires forall i :: 0 <= i < |s| ==> !Unsafe(s[i])
    ensures Sanitize(s) == s
  {
    assert forall i :: 0 <= i < |s| ==> Sanitize(s)[i] == s[i];
  }

  /** The file name: "<artist> - <title>", sanitised, then ".mp3". */
  function FileName(artist: string, title: string): (name: string)
    ensures |name| == |artist| + |title| + 7
    ensures name[|name| - 4..] == ".mp3"
    ensures name[..|name| - 4] == Sanitize(artist + " - " + title)
    ensures forall i :: 0 <= i < |name| ==> name[i] != '/'
  {
    Sanitize(artist + " - " + title) + ".mp3"
  }

  /** Sanitising works character by character, so it distributes over
      concatenation. */
  lemma SanitizeAppend(a: string, b: string)
    ensures Sanitize(a + b) == Sanitize(a) + Sanitize(b)
  {
    var l, r := Sanitize(a + b), Sanitize(a) + Sanitize(b);
    assert forall i :: 0 <= i < |a + b| ==> l[i] == r[i] by {
      forall i | 0 <= i < |a + b| ensures l[i] == r[i] {
        if i < |a| { assert (a + b)[i] == a[i]; } else { assert (a + b)[i] == b[i - |a|]; }
      }
    }
  }

  /** "AC/DC" is saved as "AC-DC". */
  lemma ExampleSanitize(artist: string)
    requires artist == "AC/DC"
    ensures Sanitize(artist) == "AC-DC"
  {
    assert forall i :: 0 <= i < 5 ==> Sanitize(artist)[i] == "AC-DC"[i];
  }

  // ------------------------------------------------------------------------
  // Paths (POSIX os.path)

  /** `os.path.join(dir, name)`: a name starting with "/" replaces the
      directory; otherwise one "/" is put between them unless the directory
      is empty or already ends with one. */
  function JoinPath(dir: string, name: string): (path: string)
    ensures |path| >= |name|
    ensures |name| > 0 && name[0] == '/' ==> path == name
    ensures (|name| == 0 || name[0] != '/') ==> path[|path| - |name|..] == name
    ensures (|name| == 0 || name[0] != '/') && (dir == [] || dir[|dir| - 1] == '/') ==> path == dir + name
    ensures (|name| == 0 || name[0] != '/') && dir != [] && dir[|dir| - 1] != '/' ==> path == dir + "/" + name
  {
    if |name| > 0 && name[0] == '/' then name
    else if dir == [] || dir[|dir| - 1] == '/' then dir + name
    else dir + "/" + name
  }

  /** The index just after the last "/" in `s[..k]`, 0 when there is none. */
  function BaseStart(s: string, k: nat): (b: nat)
    requires k <= |s|
    ensures b <= k && (b == 0 || s[b - 1] == '/')
    ensures forall i :: b <= i < k ==> s[i] != '/'
  {
    if k == 0 then 0 else if s[k - 1] == '/' then k else BaseStart(s, k - 1)
  }

  /** `os.path.basename(path)`: what follows the last "/". */
  function Basename(path: string): (r: string)
    ensures forall i :: 0 <= i < |r| ==> r[i] != '/'
    ensures |r| <= |path| && path[|path| - |r|..] == r
    ensures |r| < |path| ==> path[|path| - |r| - 1] == '/'
  {
    path[BaseStart(path, |path|)..]
  }

  /** The text after the last "/" of a path ending in a slash-free name is
      that name. */
  lemma BasenameOfJoin(dir: string, name: string)
    requires forall i :: 0 <= i < |name| ==> name[i] != '/'
    ensures Basename(JoinPath(dir, name)) == name
  {
    var p := JoinPath(dir, name);
    var n := |p| - |name|;
    assert p[n..] == name;
    assert n == 0 || p[n - 1] == '/';
    assert forall i :: n <= i < |p| ==> p[i] == name[i - n];
    BaseStartAt(p, |p|, n);
  }

  /** The last "/" before `k` is the one just before `n` (or there is none
      and `n` is 0) when no "/" lies between `n` and `k`. */
  lemma {:induction false} BaseStartAt(s: string, k: nat, n: nat)
    requires n <= k <= |s| && (n == 0 || s[n - 1] == '/')
    requires forall i :: n <= i < k ==> s[i] != '/'
    ensures BaseStart(s, k) == n
    decreases k
  {
    if k > n {
      BaseStartAt(s, k - 1, n);
    }
  }

  /** A relative name is joined below the directory. */
  lemma JoinKeepsDir(dir: string, name: string)
    requires |name| > 0 && name[0] != '/'
    ensures |JoinPath(dir, name)| >= |dir| && JoinPath(dir, name)[..|dir|] == dir
  {
    if dir != [] && dir[|dir| - 1] != '/' {
      assert (dir + "/" + name)[..|dir|] == dir;
    } else {
      assert (dir + name)[..|dir|] == dir;
    }
  }

  /** `download_video`: with no selected video nothing happens; otherwise the
      file is saved as the file name in the library directory. */
  function SavePath(selected: Option<Video>, library: string, artist: string, title: string): (r: Option<string>)
    ensures r.None? <==> selected.None?
    ensures r.Some? ==> Basename(r.value) == FileName(artist, title)
    ensures r.Some? ==> r.value == JoinPath(library, FileName(artist, title))
    ensures r.Some? ==> |r.value| >= |library| && r.value[..|library|] == library
  {
    if selected.None? then None
    else
      var name := FileName(artist, title);
      BasenameOfJoin(library, name);
      JoinKeepsDir(library, name);
      Some(JoinPath(library, name))
  }

  // ------------------------------------------------------------------------
  // The download

  const NoUrl := "No valid video URL found"

  /** The URL handed to yt-dlp: the record's `webpage_url`, else the watch URL
      of its id, else the download fails. */
  function DownloadUrl(video: Video): (r: Result<string>)
    ensures r.Ok? <==> Truthy(video.webpageUrl) || Truthy(video.id)
    ensures r.Failure? ==> r.error == NoUrl
    ensures r.Ok? ==> Some(r.value) == ResolveUrl(video.webpageUrl, video.id)
  {
    if Truthy(video.webpageUrl) then Ok(video.webpageUrl.value)
    else if Truthy(video.id) then Ok(WatchUrl(video.id.value))
    else Failure(NoUrl)
  }

  /** The two fallbacks agree: for a record built by the search, the download
      uses the URL the search already resolved, and it fails exactly when the
      entry had neither a page URL nor an id. */
  lemma DownloadUrlOfResult(e: Entry)
    requires !e.id.Missing?
    ensures DownloadUrl(Normalize(e)).Ok? <==> Truthy(e.webpageUrl) || Truthy(e.id.Get())
    ensures DownloadUrl(Normalize(e)).Ok? ==> Some(DownloadUrl(Normalize(e)).value) == Normalize(e).webpageUrl
  {
  }

  predicate StartsWith(s: string, p: string) { |s| >= |p| && s[..|p|] == p }

  predicate EndsWith(s: string, x: string) { |s| >= |x| && s[|s| - |x|..] == x }

  /** A text `p` starting with `q`, followed by `x`, starts with `q` and ends
      with `x`. */
  lemma Affixes(p: string, x: string, q: string)
    requires StartsWith(p, q)
    ensures StartsWith(p + x, q) && EndsWith(p + x, x)
  {
    assert (p + x)[..|q|] == p[..|q|];
    assert (p + x)[|p|..] == x;
  }

  /** The messages `_download_thread` ends with. */
  const ErrorPrefix := "Download error: "
  const NotFound := "Downloaded file not found"
  const Complete := "Download complete: "
  const CompleteNoMetadata := "Download complete but metadata failed: "

  /** Both status lines of a finished download start alike. */
  lemma CompletePrefixes()
    ensures StartsWith(Complete, "Download complete") && StartsWith(CompleteNoMetadata, "Download complete")
  {
    assert Complete[..17] == "Download complete";
    assert CompleteNoMetadata[..17] == "Download complete";
  }

  /** How `_download_thread` ends: `Ok` with the status line it sets, or
      `Failure` with the message of the error box (`_show_error` then sets the
      status line to "Error occurred"). `fetched` is what the download did:
      an exception message, or whether the ".mp3" it should have produced
      exists; `metadataOk` is what `_set_metadata` returned. */
  function DownloadOutcome(video: Video, savePath: string, fetched: Result<bool>, metadataOk: bool): (r: Result<string>)
    ensures r.Ok? <==> DownloadUrl(video).Ok? && fetched == Ok(true)
    ensures r.Ok? ==> StartsWith(r.value, "Download complete") && EndsWith(r.value, Basename(savePath))
    ensures r.Ok? && metadataOk ==> r.value == Complete + Basename(savePath)
    ensures r.Ok? && !metadataOk ==> r.value == CompleteNoMetadata + Basename(savePath)
    ensures DownloadUrl(video).Ok? && fetched.Failure? ==> r == Failure(ErrorPrefix + fetched.error)
    ensures r.Failure? ==> StartsWith(r.error, ErrorPrefix)
    ensures DownloadUrl(video).Failure? ==> r == Failure(ErrorPrefix + NoUrl)
    ensures DownloadUrl(video).Ok? && fetched == Ok(false) ==> r == Failure(ErrorPrefix + NotFound)
  {
    match DownloadUrl(video)
    case Failure(msg) =>
      Affixes(ErrorPrefix, msg, ErrorPrefix);
      Failure(ErrorPrefix + msg)
    case Ok(_) =>
      match fetched
      case Failure(msg) =>
        Affixes(ErrorPrefix, msg, ErrorPrefix);
        Failure(ErrorPrefix + msg)
      case Ok(false) =>
        Affixes(ErrorPrefix, NotFound, ErrorPrefix);
        Failure(ErrorPrefix + NotFound)
      case Ok(true) =>
        var name := Basename(savePath);
        var line := if metadataOk then Complete else CompleteNoMetadata;
        CompletePrefixes();
        Affixes(line, name, "Download complete");
        Ok(line + name)
  }
}
