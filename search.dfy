/** The search path: `search` checks the query, `_ytdlp_search` turns the
    entries yt-dlp returns into result records, and `_update_search_results`
    reports how many there are. yt-dlp itself is not modelled: what
    `extract_info` returned is an input. */
module Search {
  import opened Wrappers
  import opened Text

  // ------------------------------------------------------------------------
  // The query

  /** `search()`: the query is the stripped input; an empty one is refused
      (the "Please enter a search term" warning) and nothing is searched.
      Otherwise yt-dlp is asked for "ytsearch10:<query>". */
  function SearchRequest(input: string): (r: Option<string>)
    ensures r.None? <==> Strip(input) == ""
    ensures r.Some? ==> r.value == "ytsearch10:" + Strip(input)
  {
    var query := Strip(input);
    if query == "" then None else Some("ytsearch10:" + query)
  }

  /** The status line shown once the results are in. */
  function FoundStatus(results: nat): string {
    "Found " + NatToString(results) + " results"
  }

  // ------------------------------------------------------------------------
  // Durations: time.strftime('%M:%S', time.gmtime(secs))

  /** Two decimal digits, with a leading zero (`%M`, `%S`). */
  function TwoDigits(n: nat): (s: string)
    requires n < 100
    ensures |s| == 2 && AllDigits(s)
    ensures 10 * DigitValue(s[0]) + DigitValue(s[1]) == n
  {
    [DigitChar(n / 10), DigitChar(n % 10)]
  }

  /** Minutes and seconds of `secs` seconds after the epoch in UTC. `gmtime`
      works on whole seconds since the epoch, and negative values are before
      it: the minute and the second are the floor remainders, which Dafny's
      `%` computes for a positive divisor. Hours and days are not shown. */
  function Clock(secs: int): (s: string)
    ensures |s| == 5 && s[2] == ':'
    ensures AllDigits(s[..2]) && AllDigits(s[3..])
  {
    TwoDigits(secs % 3600 / 60) + ":" + TwoDigits(secs % 60)
  }

  /** Reads an "MM:SS" text back as a number of seconds. */
  function ClockSeconds(s: string): int
    requires |s| == 5 && AllDigits(s[..2]) && AllDigits(s[3..])
  {
    var m := s[..2];
    var t := s[3..];
    60 * (10 * DigitValue(m[0]) + DigitValue(m[1])) + 10 * DigitValue(t[0]) + DigitValue(t[1])
  }

  /** The clock text records the position within the hour exactly. */
  lemma ClockRoundTrip(secs: int)
    ensures ClockSeconds(Clock(secs)) == secs % 3600
  {
    var s := Clock(secs);
    var mm, ss := secs % 3600 / 60, secs % 60;
    assert s[..2] == TwoDigits(mm);
    assert s[3..] == TwoDigits(ss);
    HourSplit(secs);
  }

  /** The position within the hour is the minutes and the seconds. */
  lemma HourSplit(secs: int)
    ensures secs % 3600 == 60 * (secs % 3600 / 60) + secs % 60
  {
    var x := secs % 3600;
    var q := secs / 3600;
    assert secs == 3600 * q + x;
    assert secs == 60 * (60 * q + x / 60) + x % 60;
    ModUnique(secs, 60 * q + x / 60, x % 60);
  }

  /** The remainder by 60 is the only one in range. */
  lemma ModUnique(n: int, q: int, r: int)
    requires n == 60 * q + r && 0 <= r < 60
    ensures n % 60 == r
  {
  }

  /** Hours are dropped: two durations an hour apart read the same. */
  lemma ClockDropsHours(secs: int)
    ensures Clock(secs + 3600) == Clock(secs)
  {
    ShiftByHour(secs);
  }

  lemma ShiftByHour(n: int)
    ensures (n + 3600) % 3600 == n % 3600 && (n + 3600) % 60 == n % 60
  {
    assert n == 3600 * (n / 3600) + n % 3600;
    HourModUnique(n + 3600, n / 3600 + 1, n % 3600);
    assert n == 60 * (n / 60) + n % 60;
    ModUnique(n + 3600, n / 60 + 60, n % 60);
  }

  lemma HourModUnique(n: int, q: int, r: int)
    requires n == 3600 * q + r && 0 <= r < 3600
    ensures n % 3600 == r
  {
  }

  /** Within an hour the clock text tells durations apart. */
  lemma ClockInjective(a: int, b: int)
    requires 0 <= a < 3600 && 0 <= b < 3600 && Clock(a) == Clock(b)
    ensures a == b
  {
    ClockRoundTrip(a);
    ClockRoundTrip(b);
    WithinHour(a);
    WithinHour(b);
  }

  lemma WithinHour(n: int)
    requires 0 <= n < 3600
    ensures n % 3600 == n
  {
  }

  /** The duration column: "Unknown" when yt-dlp gave no duration or zero,
      the clock text otherwise. */
  function DurationText(duration: Option<int>): (s: string)
    ensures s == "Unknown" <==> duration.None? || duration.value == 0
    ensures s != "Unknown" ==> s == Clock(duration.value)
  {
    if duration.None? || duration.value == 0 then "Unknown" else Clock(duration.value)
  }

  // ------------------------------------------------------------------------
  // Entries and results

  /** A dictionary key as `dict[key]` sees it: absent, present with `None`, or
      present with a value. */
  datatype Field<+T> = Missing | Null | Present(v: T) {
    /** `d.get(key)`. */
    function Get(): Option<T> {
      match this
      case Present(v) => Some(v)
      case _ => None
    }
  }

  /** One flat entry of the search: the keys `_ytdlp_search` reads. For the
      keys it reads with `.get`, an absent key and a `None` value behave alike,
      so only `id` (read with `entry['id']`) keeps the distinction. */
  datatype Entry = Entry(
    id: Field<string>,
    title: Option<string>,
    uploader: Option<string>,
    duration: Option<int>,
    thumbnail: Option<string>,
    webpageUrl: Option<string>)

  /** An element of `info['entries']`: `None` or an empty dictionary (skipped
      by `if not entry`) or an entry. */
  datatype RawEntry = Falsy | Dict(entry: Entry)

  /** The result record built for one entry. */
  datatype Video = Video(
    id: Option<string>,
    title: string,
    channel: string,
    duration: string,
    thumbnail: Option<string>,
    webpageUrl: Option<string>)

  function WatchUrl(id: string): (url: string)
    ensures |url| == 32 + |id| && url[32..] == id
  {
    "https://www.youtube.com/watch?v=" + id
  }

  /** The video page: the entry's own `webpage_url` when it is truthy, else
      the watch URL built from a truthy id; otherwise the falsy value stays. */
  function ResolveUrl(url: Option<string>, id: Option<string>): (r: Option<string>)
    ensures Truthy(r) <==> Truthy(url) || Truthy(id)
    ensures Truthy(url) ==> r == url
    ensures !Truthy(url) && Truthy(id) ==> r == Some(WatchUrl(id.value))
    ensures !Truthy(url) && !Truthy(id) ==> r == url
  {
    if Truthy(url) then url else if Truthy(id) then Some(WatchUrl(id.value)) else url
  }

  /** Resolving twice changes nothing. */
  lemma ResolveUrlIdempotent(url: Option<string>, id: Option<string>)
    ensures ResolveUrl(ResolveUrl(url, id), id) == ResolveUrl(url, id)
  {
  }

  /** The result record for an entry whose `id` key is present. */
  function Normalize(e: Entry): (v: Video)
    requires !e.id.Missing?
    ensures v.id == e.id.Get()
    ensures v.title == e.title.GetOr("Unknown Title")
    ensures v.channel == e.uploader.GetOr("Unknown Uploader")
    ensures v.duration == DurationText(e.duration) && v.thumbnail == e.thumbnail
    ensures v.webpageUrl == ResolveUrl(e.webpageUrl, e.id.Get())
    ensures Truthy(v.webpageUrl) <==> Truthy(e.webpageUrl) || Truthy(e.id.Get())
    ensures Truthy(e.webpageUrl) ==> v.webpageUrl == e.webpageUrl
  {
    Video(e.id.Get(), e.title.GetOr("Unknown Title"), e.uploader.GetOr("Unknown Uploader"),
          DurationText(e.duration), e.thumbnail, ResolveUrl(e.webpageUrl, e.id.Get()))
  }

  /** The records for the entries in order: falsy entries are skipped, and an
      entry without an `id` key raises a KeyError, which the `try` around the
      loop catches, so the results end with what was built before it. */
  function Collect(entries: seq<RawEntry>): (r: seq<Video>)
    ensures |r| <= |entries|
  {
    if entries == [] then []
    else
      var rest := Collect(entries[1..]);
      match entries[0]
      case Falsy => rest
      case Dict(e) => if e.id.Missing? then [] else [Normalize(e)] + rest
  }

  /** `v` is the record of one of the entries. */
  predicate NormalizedFrom(entries: seq<RawEntry>, v: Video) {
    exists j :: 0 <= j < |entries| && entries[j].Dict? && !entries[j].entry.id.Missing? && v == Normalize(entries[j].entry)
  }

  /** Every record comes from an entry that has an `id` key. */
  lemma {:induction false} CollectProvenance(entries: seq<RawEntry>)
    ensures forall k :: 0 <= k < |Collect(entries)| ==> NormalizedFrom(entries, Collect(entries)[k])
    decreases |entries|
  {
    if entries != [] {
      var rest := Collect(entries[1..]);
      CollectProvenance(entries[1..]);
      forall k | 0 <= k < |rest| ensures NormalizedFrom(entries, rest[k]) {
        NormalizedFromTail(entries, rest[k]);
      }
      if entries[0].Dict? && !entries[0].entry.id.Missing? {
        ProvenanceCons(entries, rest);
      }
    }
  }

  lemma NormalizedFromTail(entries: seq<RawEntry>, v: Video)
    requires entries != [] && NormalizedFrom(entries[1..], v)
    ensures NormalizedFrom(entries, v)
  {
    var j :| 0 <= j < |entries[1..]| && entries[1..][j].Dict? && !entries[1..][j].entry.id.Missing? && v == Normalize(entries[1..][j].entry);
    assert entries[j + 1] == entries[1..][j];
  }

  lemma ProvenanceCons(entries: seq<RawEntry>, rest: seq<Video>)
    requires entries != [] && entries[0].Dict? && !entries[0].entry.id.Missing?
    requires rest == Collect(entries[1..]) && forall k :: 0 <= k < |rest| ==> NormalizedFrom(entries, rest[k])
    ensures forall k :: 0 <= k < |Collect(entries)| ==> NormalizedFrom(entries, Collect(entries)[k])
  {
    var v := Normalize(entries[0].entry);
    assert Collect(entries) == [v] + rest;
    assert NormalizedFrom(entries, v);
    FromCons(entries, v, rest, Collect(entries));
  }

  lemma FromCons(entries: seq<RawEntry>, v: Video, rest: seq<Video>, r: seq<Video>)
    requires r == [v] + rest && NormalizedFrom(entries, v)
    requires forall k :: 0 <= k < |rest| ==> NormalizedFrom(entries, rest[k])
    ensures forall k :: 0 <= k < |r| ==> NormalizedFrom(entries, r[k])
  {
    assert forall k :: 1 <= k < |r| ==> r[k] == rest[k - 1];
  }

  /** What `_ytdlp_search` returns: nothing when `extract_info` raised or its
      answer has no 'entries' (`info` is None then), else the collected records. */
  function SearchResults(info: Option<seq<RawEntry>>): seq<Video> {
    match info
    case None => []
    case Some(entries) => Collect(entries)
  }

  /** The entries no record is missing for: none lacks its `id` key. */
  predicate AllKeyed(entries: seq<RawEntry>) {
    forall j :: 0 <= j < |entries| && entries[j].Dict? ==> !entries[j].entry.id.Missing?
  }

  /** Collecting a concatenation of fully keyed entries collects the parts. */
  lemma {:induction false} CollectAppend(a: seq<RawEntry>, b: seq<RawEntry>)
    requires AllKeyed(a)
    ensures Collect(a + b) == Collect(a) + Collect(b)
    decreases |a|
  {
    if a == [] {
      assert a + b == b;
    } else {
      assert (a + b)[1..] == a[1..] + b;
      assert AllKeyed(a[1..]) by {
        forall j | 0 <= j < |a[1..]| && a[1..][j].Dict? ensures !a[1..][j].entry.id.Missing? {
          assert a[1..][j] == a[j + 1];
        }
      }
      CollectAppend(a[1..], b);
    }
  }

  /** The first entry without an `id` ends the search: nothing after it
      counts. */
  lemma {:induction false} CollectStops(entries: seq<RawEntry>, k: nat)
    requires k < |entries| && entries[k].Dict? && entries[k].entry.id.Missing?
    ensures Collect(entries) == Collect(entries[..k])
    decreases k
  {
    if k == 0 {
      assert entries[..k] == [];
    } else {
      assert entries[1..][k - 1] == entries[k];
      CollectStops(entries[1..], k - 1);
      assert entries[1..][..k - 1] == entries[..k][1..];
    }
  }

  /** With every entry present and keyed, each one yields exactly its record. */
  lemma {:induction false} CollectAllPresent(entries: seq<RawEntry>)
    requires forall j :: 0 <= j < |entries| ==> entries[j].Dict? && !entries[j].entry.id.Missing?
    ensures |Collect(entries)| == |entries|
    ensures forall j :: 0 <= j < |entries| ==> Collect(entries)[j] == Normalize(entries[j].entry)
  {
    if entries != [] {
      var rest := entries[1..];
      assert forall j :: 0 <= j < |rest| ==> rest[j] == entries[j + 1];
      CollectAllPresent(rest);
      assert Collect(entries) == [Normalize(entries[0].entry)] + Collect(rest);
      PresentCons(entries, Collect(rest), Collect(entries));
    }
  }

  lemma PresentCons(entries: seq<RawEntry>, rest: seq<Video>, r: seq<Video>)
    requires entries != [] && forall j :: 0 <= j < |entries| ==> entries[j].Dict? && !entries[j].entry.id.Missing?
    requires r == [Normalize(entries[0].entry)] + rest
    requires |rest| == |entries| - 1
    requires forall j :: 0 <= j < |rest| ==> rest[j] == Normalize(entries[1..][j].entry)
    ensures |r| == |entries| && forall j :: 0 <= j < |entries| ==> r[j] == Normalize(entries[j].entry)
  {
    forall j | 0 <= j < |entries| ensures r[j] == Normalize(entries[j].entry) {
      if j > 0 {
        assert r[j] == rest[j - 1] && entries[1..][j - 1] == entries[j];
      }
    }
  }

  /** `_ytdlp_search`: the loop over the entries, appending one record per
      truthy entry and leaving the loop at the first entry without an `id`. */
  method YtdlpSearch(info: Option<seq<RawEntry>>) returns (results: seq<Video>)
    ensures results == SearchResults(info)
  {
    results := [];
    if info.None? {
      return;
    }
    var entries := info.value;
    var i := 0;
    while i < |entries|
      invariant 0 <= i <= |entries|
      invariant results + Collect(entries[i..]) == Collect(entries)
    {
      assert entries[i..][1..] == entries[i + 1..];
      if entries[i].Dict? {
        var e := entries[i].entry;
        if e.id.Missing? {
          break;
        }
        results := results + [Normalize(e)];
      }
      i := i + 1;
    }
    if i == |entries| {
      assert entries[i..] == [];
    }
  }
}
