/** The metadata lookups started when a video is selected: the MusicBrainz
    recording search (`_fetch_metadata`) and the iTunes search
    (`_fetch_itunes_metadata`). The services are not modelled: the parsed
    answer each one gave is an input, and the lookups return the updates they
    post to the album, year and genre fields. */
module Metadata {
  import opened Wrappers
  import opened Text
  import opened Widgets

  // ------------------------------------------------------------------------
  // Field extraction

  /** `re.match(r'(\d{4})', date)`: the year is the first four characters when
      they are all digits. */
  function ExtractYear(date: string): (year: Option<string>)
    ensures year.Some? <==> |date| >= 4 && AllDigits(date[..4])
    ensures year.Some? ==> |year.value| == 4 && AllDigits(year.value) && date == year.value + date[4..]
  {
    if |date| >= 4 && AllDigits(date[..4]) then Some(date[..4]) else None
  }

  /** The genres MusicBrainz tags are checked against, in lower case. */
  const GenreWhitelist: seq<string> := ["rock", "pop", "jazz", "classical", "electronic", "hip-hop", "rap",
    "metal", "country", "folk", "blues", "r&b", "reggae", "indie",
    "dance", "ambient", "punk", "latin"]

  lemma WhitelistSize()
    ensures |GenreWhitelist| == 18
    ensures forall i, j :: 0 <= i < j < |GenreWhitelist| ==> GenreWhitelist[i] != GenreWhitelist[j]
  {
  }

  /** One entry of a recording's 'tag-list'. */
  datatype Tag = Tag(name: Option<string>, count: Option<int>)

  /** `tag.get('name') and tag.get('count', 0) > 0` and a whitelisted lower-case name. */
  predicate IsGenreTag(t: Tag) {
    t.name.Some? && t.name.value != "" && t.count.GetOr(0) > 0 && Lower(t.name.value) in GenreWhitelist
  }

  /** The names of the genre tags, in their own spelling and in tag order. */
  function GenreNames(tags: seq<Tag>): (names: seq<string>)
    ensures |names| <= |tags|
  {
    if tags == [] then []
    else (if IsGenreTag(tags[0]) then [tags[0].name.value] else []) + GenreNames(tags[1..])
  }

  /** A name is collected exactly when some genre tag carries it. */
  lemma {:induction false} GenreNamesMembers(tags: seq<Tag>, g: string)
    ensures g in GenreNames(tags) <==> exists k :: 0 <= k < |tags| && IsGenreTag(tags[k]) && tags[k].name.value == g
  {
    if tags != [] {
      GenreNamesMembers(tags[1..], g);
      assert forall k :: 0 <= k < |tags[1..]| ==> tags[1..][k] == tags[k + 1];
      if exists k :: 0 <= k < |tags| && IsGenreTag(tags[k]) && tags[k].name.value == g {
        var k :| 0 <= k < |tags| && IsGenreTag(tags[k]) && tags[k].name.value == g;
        if k > 0 {
          assert IsGenreTag(tags[1..][k - 1]) && tags[1..][k - 1].name.value == g;
        }
      }
    }
  }

  /** Collecting over consecutive tag lists collects in order: the order of the
      tags is kept. */
  lemma {:induction false} GenreNamesAppend(a: seq<Tag>, b: seq<Tag>)
    ensures GenreNames(a + b) == GenreNames(a) + GenreNames(b)
  {
    if a == [] {
      assert a + b == b;
    } else {
      GenreNamesAppend(a[1..], b);
      assert (a + b)[0] == a[0] && (a + b)[1..] == a[1..] + b;
      GenreNamesCons(a);
      GenreNamesCons(a + b);
      AppendAssoc(GenreHead(a), GenreNames(a[1..]), GenreNames(b));
    }
  }

  /** The name of the first tag, if it is a genre tag. */
  function GenreHead(tags: seq<Tag>): seq<string>
    requires tags != []
  {
    if IsGenreTag(tags[0]) then [tags[0].name.value] else []
  }

  lemma GenreNamesCons(tags: seq<Tag>)
    requires tags != []
    ensures GenreNames(tags) == GenreHead(tags) + GenreNames(tags[1..])
  {
  }

  /** Every collected name is one of the whitelisted genres, in some casing. */
  lemma GenreNamesWhitelisted(tags: seq<Tag>)
    ensures forall g :: g in GenreNames(tags) ==> g != "" && Lower(g) in GenreWhitelist
  {
    forall g | g in GenreNames(tags) ensures g != "" && Lower(g) in GenreWhitelist {
      GenreNamesMembers(tags, g);
    }
  }

  /** The `for tag in recording['tag-list']` loop that appends the names. */
  method CollectGenres(tags: seq<Tag>) returns (genres: seq<string>)
    ensures genres == GenreNames(tags)
  {
    genres := [];
    for i := 0 to |tags|
      invariant genres == GenreNames(tags[..i])
    {
      if IsGenreTag(tags[i]) {
        genres := genres + [tags[i].name.value];
      }
      assert tags[..i + 1] == tags[..i] + [tags[i]];
      GenreNamesAppend(tags[..i], [tags[i]]);
    }
    assert tags[..|tags|] == tags;
  }

  /** The genre field: the first two names joined with ", "; no update when
      there are none. */
  function GenreField(genres: seq<string>): (r: Option<string>)
    ensures r.None? <==> genres == []
    ensures |genres| == 1 ==> r == Some(genres[0])
    ensures |genres| >= 2 ==> r == Some(genres[0] + ", " + genres[1])
  {
    if genres == [] then None
    else if |genres| == 1 then Some(genres[0])
    else
      var two := genres[..2];
      assert two[1..] == [genres[1]];
      assert Join(two, ", ") == two[0] + ", " + Join(two[1..], ", ");
      Some(Join(two, ", "))
  }

  // ------------------------------------------------------------------------
  // The updates a lookup posts

  /** The fields a lookup sets, each at most once; `None` leaves a field alone. */
  datatype FieldUpdates = FieldUpdates(album: Option<string>, year: Option<string>, genre: Option<string>)

  /** The form after the posted updates have run. Title and artist are never
      touched. */
  function Apply(form: Form, u: FieldUpdates): (f: Form)
    ensures f.title == form.title && f.artist == form.artist
    ensures f.album == u.album.GetOr(form.album)
    ensures f.year == u.year.GetOr(form.year)
    ensures f.genre == u.genre.GetOr(form.genre)
  {
    Form(form.title, form.artist, u.album.GetOr(form.album), u.year.GetOr(form.year), u.genre.GetOr(form.genre))
  }

  /** The two lookups run on their own threads and both post plain sets: for a
      field both of them set, whichever runs last wins; the order decides. */
  lemma LastLookupWins(form: Form, first: FieldUpdates, second: FieldUpdates)
    ensures second.album.Some? ==> Apply(Apply(form, first), second).album == second.album.value
    ensures second.album.None? && first.album.Some? ==> Apply(Apply(form, first), second).album == first.album.value
    ensures second.year.Some? ==> Apply(Apply(form, first), second).year == second.year.value
    ensures second.genre.Some? ==> Apply(Apply(form, first), second).genre == second.genre.value
  {
  }

  /** So the outcome depends on the order in which the answers arrive when the
      two services disagree. */
  lemma ArrivalOrderMatters(form: Form, a: FieldUpdates, b: FieldUpdates)
    requires a.album.Some? && b.album.Some? && a.album.value != b.album.value
    ensures Apply(Apply(form, a), b) != Apply(Apply(form, b), a)
  {
    LastLookupWins(form, a, b);
    LastLookupWins(form, b, a);
  }

  // ------------------------------------------------------------------------
  // MusicBrainz

  /** The first release of a recording. */
  datatype Release = Release(title: Option<string>, date: Option<string>, id: Option<string>)

  /** The first recording found: its 'release-list' and its 'tag-list', each
      `None` when the key is absent. */
  datatype Recording = Recording(releases: Option<seq<Release>>, tags: Option<seq<Tag>>)

  /** The first entry of a non-empty 'release-list', if there is one. */
  function FirstRelease(rec: Recording): (first: Option<Release>)
    ensures first.Some? <==> rec.releases.Some? && rec.releases.value != []
    ensures first.Some? ==> first.value == rec.releases.value[0]
  {
    if rec.releases.Some? && rec.releases.value != [] then Some(rec.releases.value[0]) else None
  }

  /** The query sent to MusicBrainz. */
  function MusicBrainzQuery(artist: string, title: string): string {
    "artist:" + artist + " AND recording:" + title
  }

  /** The updates posted for the recording found (`None`: nothing found, or the
      search raised), and the release whose front cover is fetched next. */
  function MusicBrainzLookup(recording: Option<Recording>): (r: (FieldUpdates, Option<string>))
    ensures recording.None? ==> r == (FieldUpdates(None, None, None), None)
    ensures r.0.album.Some? ==> r.0.album.value != ""
    ensures r.0.year.Some? ==> |r.0.year.value| == 4 && AllDigits(r.0.year.value)
    ensures r.0.genre.Some? <==> recording.Some? && recording.value.tags.Some? && GenreNames(recording.value.tags.value) != []
    ensures r.1.Some? ==> r.1.value != ""
    ensures recording.Some? && recording.value.tags.Some? ==> r.0.genre == GenreField(GenreNames(recording.value.tags.value))
    ensures recording.Some? && FirstRelease(recording.value).None? ==> r.0.album.None? && r.0.year.None? && r.1.None?
    ensures recording.Some? && FirstRelease(recording.value).Some? ==>
      var first := FirstRelease(recording.value).value;
      (r.0.album.Some? <==> Truthy(first.title)) && (r.0.album.Some? ==> r.0.album == first.title) &&
      (first.date.Some? ==> r.0.year == ExtractYear(first.date.value)) && (first.date.None? ==> r.0.year.None?) &&
      (r.1.Some? <==> Truthy(first.id)) && (r.1.Some? ==> r.1 == first.id)
  {
    match recording
    case None => (FieldUpdates(None, None, None), None)
    case Some(rec) =>
      var first := FirstRelease(rec);
      var album := if first.Some? && Truthy(first.value.title) then first.value.title else None;
      var year := if first.Some? && first.value.date.Some? then ExtractYear(first.value.date.value) else None;
      var genre := if rec.tags.Some? then GenreField(GenreNames(rec.tags.value)) else None;
      var release := if first.Some? && Truthy(first.value.id) then first.value.id else None;
      (FieldUpdates(album, year, genre), release)
  }

  // ------------------------------------------------------------------------
  // iTunes

  /** The first entry of the iTunes 'results'. */
  datatype ItunesResult = ItunesResult(
    collectionName: Option<string>,
    releaseDate: Option<string>,
    primaryGenreName: Option<string>,
    artworkUrl100: Option<string>)

  /** The iTunes answer: the request or the JSON decoding raised, or a reply
      with its status, its 'resultCount' (absent: 0) and its 'results'. */
  datatype ItunesAnswer = ItunesRaised | ItunesReply(status: int, resultCount: Option<int>, results: seq<ItunesResult>)

  const ItunesSearchPrefix := "https://itunes.apple.com/search?term="
  const ItunesSearchSuffix := "&media=music&limit=1"

  predicate NoSpace(s: string) {
    forall i :: 0 <= i < |s| ==> s[i] != ' '
  }

  /** The search URL: "<artist> <title>" with each space turned into "+" and
      every other character kept as it is (no escaping); the URL holds no
      space. */
  function ItunesSearchUrl(artist: string, title: string): (url: string)
    ensures url == ItunesSearchPrefix + MapChar(artist + " " + title, ' ', '+') + ItunesSearchSuffix
    ensures NoSpace(url)
  {
    var query := artist + " " + title;
    var term := ReplaceAll(query, " ", "+");
    ReplaceSingleChar(query, ' ', '+');
    UrlPartsNoSpace();
    NoSpaceConcat(ItunesSearchPrefix, term);
    NoSpaceConcat(ItunesSearchPrefix + term, ItunesSearchSuffix);
    ItunesSearchPrefix + term + ItunesSearchSuffix
  }

  lemma UrlPartsNoSpace()
    ensures NoSpace(ItunesSearchPrefix) && NoSpace(ItunesSearchSuffix)
  {
  }

  lemma NoSpaceConcat(a: string, b: string)
    requires NoSpace(a) && NoSpace(b)
    ensures NoSpace(a + b)
  {
    assert forall i :: |a| <= i < |a + b| ==> (a + b)[i] == b[i - |a|];
  }

  /** The larger artwork: every "100x100" of the URL becomes "600x600". */
  function UpgradeArtworkUrl(url: string): (r: string)
    ensures |r| == |url|
    ensures !Contains(url, "100x100") ==> r == url
    ensures r == Join(Split(url, "100x100"), "600x600")
    ensures Contains(url, "100x100") ==> r != url
  {
    ReplaceKeepsLength(url, "100x100", "600x600");
    ReplaceIsSplitJoin(url, "100x100", "600x600");
    UpgradeChangesFirst(url);
    ReplaceWithout(url, "100x100", "600x600");
    ReplaceAll(url, "100x100", "600x600")
  }

  /** At the first "100x100" the upgraded URL reads "6" where the URL reads
      "1", so a URL holding the small size is always changed. */
  lemma UpgradeChangesFirst(url: string)
    ensures Contains(url, "100x100") ==> ReplaceAll(url, "100x100", "600x600") != url
  {
    if Contains(url, "100x100") {
      var pat, rep := "100x100", "600x600";
      ReplaceStep(url, pat, rep);
      var i := FindFirst(url, pat).value;
      var r := ReplaceAll(url, pat, rep);
      assert url[i..i + |pat|] == pat;
      assert r[i] == rep[0];
      assert url[i] == pat[0];
    }
  }

  /** What the iTunes lookup does with the answer: the updates it posts, the
      artwork URL it fetches next, and the status line it shows (`None`: an
      exception, reported only on the console). */
  function ItunesLookup(answer: ItunesAnswer): (r: (FieldUpdates, Option<string>, Option<string>))
    ensures r.2 == Some("Metadata found from iTunes") <==>
      answer.ItunesReply? && answer.status == 200 && answer.resultCount.GetOr(0) > 0 && answer.results != []
    ensures r.0 != FieldUpdates(None, None, None) || r.1.Some? ==> r.2 == Some("Metadata found from iTunes")
    ensures r.1.Some? ==>
      answer.ItunesReply? && answer.results != [] && Truthy(answer.results[0].artworkUrl100) &&
      r.1.value == UpgradeArtworkUrl(answer.results[0].artworkUrl100.value)
    ensures answer.ItunesRaised? ==> r == (FieldUpdates(None, None, None), None, None)
    ensures answer.ItunesReply? && answer.status != 200 ==>
      r == (FieldUpdates(None, None, None), None, Some("Error fetching iTunes metadata"))
    ensures answer.ItunesReply? && answer.status == 200 && answer.resultCount.GetOr(0) <= 0 ==>
      r == (FieldUpdates(None, None, None), None, Some("No iTunes metadata found"))
    ensures answer.ItunesReply? && answer.status == 200 && answer.resultCount.GetOr(0) > 0 && answer.results == [] ==>
      r == (FieldUpdates(None, None, None), None, None)
    ensures r.2 == Some("Metadata found from iTunes") ==>
      var res := answer.results[0];
      (r.0.album.Some? <==> Truthy(res.collectionName)) && (r.0.album.Some? ==> r.0.album == res.collectionName) &&
      (Truthy(res.releaseDate) ==> r.0.year == ExtractYear(res.releaseDate.value)) &&
      (!Truthy(res.releaseDate) ==> r.0.year.None?) &&
      (r.0.genre.Some? <==> Truthy(res.primaryGenreName)) && (r.0.genre.Some? ==> r.0.genre == res.primaryGenreName) &&
      (r.1.Some? <==> Truthy(res.artworkUrl100))
  {
    match answer
    case ItunesRaised => (FieldUpdates(None, None, None), None, None)
    case ItunesReply(status, count, results) =>
      if status != 200 then (FieldUpdates(None, None, None), None, Some("Error fetching iTunes metadata"))
      else if count.GetOr(0) <= 0 then (FieldUpdates(None, None, None), None, Some("No iTunes metadata found"))
      else if results == [] then (FieldUpdates(None, None, None), None, None)
      else
        var res := results[0];
        var album := if Truthy(res.collectionName) then res.collectionName else None;
        var year := if Truthy(res.releaseDate) then ExtractYear(res.releaseDate.value) else None;
        var genre := if Truthy(res.primaryGenreName) then res.primaryGenreName else None;
        var art := if Truthy(res.artworkUrl100) then Some(UpgradeArtworkUrl(res.artworkUrl100.value)) else None;
        (FieldUpdates(album, year, genre), art, Some("Metadata found from iTunes"))
  }
}
