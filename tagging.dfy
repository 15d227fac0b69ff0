/** `_set_metadata` and `_add_album_art_to_tags`: which ID3 frames are put
    on the downloaded file, and which picture becomes its cover. Opening,
    clearing, saving and re-reading the file are not modelled; the frames
    that would be saved are the result. */
module Tagging {
  import opened Wrappers
  import opened Text
  import opened Http
  import opened Widgets
  import opened Search
  import opened Metadata
  import Lyrics

  /** The five text frames the form fills. */
  datatype FrameId = TIT2 | TPE1 | TALB | TDRC | TCON

  /** An ID3 frame as the application builds it (all with encoding 3, UTF-8). */
  datatype Frame =
    | TextFrame(id: FrameId, text: string)
    | LyricsFrame(lang: string, desc: string, text: string)
    | CoverFrame(mime: string, pictureType: int, desc: string, data: Bytes)

  /** The entry field each text frame is taken from. */
  function FieldOf(form: Form, id: FrameId): string {
    match id
    case TIT2 => form.title
    case TPE1 => form.artist
    case TALB => form.album
    case TDRC => form.year
    case TCON => form.genre
  }

  /** The tag being built (`ID3()`): its frames in the order they were added. */
  class Id3 {
    var frames: seq<Frame>

    constructor()
      ensures frames == []
    {
      frames := [];
    }

    /** `tags.add(frame)` */
    method Add(frame: Frame)
      modifies this
      ensures frames == old(frames) + [frame]
    {
      frames := frames + [frame];
    }
  }

  /** The cover frame for a picture. */
  function Cover(data: Bytes): Frame {
    CoverFrame("image/jpeg", 3, "Cover", data)
  }

  // ------------------------------------------------------------------------
  // The cover picture

  /** The picture `_add_album_art_to_tags` puts on the file, in order of
      precedence: the artwork selected in the window; else the video's
      thumbnail, fetched with `get`; else the first iTunes result's artwork,
      upgraded to 600x600 and fetched with `get`. A thumbnail request that
      raises ends the search without trying iTunes; one that answers with
      another status falls through to iTunes. `search` is the iTunes answer
      to a search URL. */
  function AlbumArtForTags(selected: Option<Bytes>, video: Option<Video>, form: Form,
                           get: string -> Response, search: string -> ItunesAnswer): (art: Option<Bytes>)
    ensures selected.Some? ==> art == selected
    ensures selected.None? && video.Some? && Truthy(video.value.thumbnail) ==>
      var thumb := get(video.value.thumbnail.value);
      (thumb.Ok() ==> art == Some(thumb.content)) && (thumb.Raised? ==> art == None)
    ensures selected.None? && !ThumbnailDecides(video, get) ==>
      var url := ItunesArtUrl(search(ItunesSearchUrl(form.artist, form.title)));
      (art.Some? <==> url.Some? && get(url.value).Ok()) && (art.Some? ==> art.value == get(url.value).content)
    ensures art.Some? ==>
      art == selected ||
      (video.Some? && Truthy(video.value.thumbnail) && get(video.value.thumbnail.value).Ok() &&
       art.value == get(video.value.thumbnail.value).content) ||
      (ItunesArtUrl(search(ItunesSearchUrl(form.artist, form.title))).Some? &&
       var url := ItunesArtUrl(search(ItunesSearchUrl(form.artist, form.title))).value;
       get(url).Ok() && art.value == get(url).content)
  {
    if selected.Some? then selected
    else
      var thumbnailTried := video.Some? && Truthy(video.value.thumbnail);
      var thumb := if thumbnailTried then get(video.value.thumbnail.value) else Raised;
      if thumbnailTried && thumb.Raised? then None
      else if thumbnailTried && thumb.Ok() then Some(thumb.content)
      else
        match ItunesArtUrl(search(ItunesSearchUrl(form.artist, form.title)))
        case None => None
        case Some(url) =>
          var response := get(url);
          if response.Ok() then Some(response.content) else None
  }

  /** The thumbnail request ends the search: there is a thumbnail URL and
      its request answers 200 or raises. */
  predicate ThumbnailDecides(video: Option<Video>, get: string -> Response) {
    video.Some? && Truthy(video.value.thumbnail) &&
    (get(video.value.thumbnail.value).Ok() || get(video.value.thumbnail.value).Raised?)
  }

  /** The artwork URL the iTunes fallback fetches: with status 200, a
      positive 'resultCount', a first result and a non-empty 'artworkUrl100',
      that URL upgraded to 600x600. */
  function ItunesArtUrl(answer: ItunesAnswer): (url: Option<string>)
    ensures url.Some? <==>
      answer.ItunesReply? && answer.status == 200 && answer.resultCount.GetOr(0) > 0 &&
      answer.results != [] && Truthy(answer.results[0].artworkUrl100)
    ensures url.Some? ==> url.value == UpgradeArtworkUrl(answer.results[0].artworkUrl100.value)
  {
    match answer
    case ItunesRaised => None
    case ItunesReply(status, count, results) =>
      if status != 200 || count.GetOr(0) <= 0 || results == [] then None
      else if Truthy(results[0].artworkUrl100) then Some(UpgradeArtworkUrl(results[0].artworkUrl100.value))
      else None
  }

  /** The thumbnail has precedence over iTunes: when its request succeeds, or
      raises, the search is not consulted at all. */
  lemma ThumbnailBeforeItunes(video: Video, form: Form, get: string -> Response,
                              search1: string -> ItunesAnswer, search2: string -> ItunesAnswer)
    requires Truthy(video.thumbnail)
    requires get(video.thumbnail.value).Raised? || get(video.thumbnail.value).Ok()
    ensures AlbumArtForTags(None, Some(video), form, get, search1) == AlbumArtForTags(None, Some(video), form, get, search2)
  {
  }

  /** `_add_album_art_to_tags`: adds the cover frame when there is a picture
      and says whether it did. */
  method AddAlbumArtToTags(tags: Id3, selected: Option<Bytes>, video: Option<Video>, form: Form,
                           get: string -> Response, search: string -> ItunesAnswer)
    returns (hasArt: bool)
    modifies tags
    ensures var art := AlbumArtForTags(selected, video, form, get, search);
      hasArt == art.Some? &&
      tags.frames == old(tags.frames) + (if art.Some? then [Cover(art.value)] else [])
  {
    var art := AlbumArtForTags(selected, video, form, get, search);
    if art.Some? {
      tags.Add(Cover(art.value));
      hasArt := true;
    } else {
      hasArt := false;
    }
  }

  // ------------------------------------------------------------------------
  // The frames

  /** The order in which the text frames are added. */
  const TextOrder: seq<FrameId> := [TIT2, TPE1, TALB, TDRC, TCON]

  /** The text frame for one field: there is one exactly when the field is
      non-empty. */
  function TextFrameFor(form: Form, id: FrameId): seq<Frame> {
    if FieldOf(form, id) != "" then [TextFrame(id, FieldOf(form, id))] else []
  }

  /** The text frames for the fields `ids`, added in that order. */
  function TextFrames(form: Form, ids: seq<FrameId>): seq<Frame>
    decreases |ids|
  {
    if ids == [] then []
    else TextFrames(form, ids[..|ids| - 1]) + TextFrameFor(form, ids[|ids| - 1])
  }

  /** The frames `_set_metadata` adds, in order: a text frame for each
      non-empty field, the lyrics (`lyrics` is the box's text, stripped)
      unless empty or the placeholder, then the cover. */
  function FramesFor(form: Form, lyrics: string, art: Option<Bytes>): seq<Frame> {
    TextFrames(form, TextOrder) + LyricsFrames(lyrics) + CoverFrames(art)
  }

  /** The lyrics frame, unless there are no lyrics or only the placeholder. */
  function LyricsFrames(lyrics: string): seq<Frame> {
    if lyrics != "" && lyrics != Lyrics.Placeholder then [LyricsFrame("eng", "", lyrics)] else []
  }

  function CoverFrames(art: Option<Bytes>): seq<Frame> {
    if art.Some? then [Cover(art.value)] else []
  }

  predicate HasText(frames: seq<Frame>, id: FrameId) {
    exists k :: 0 <= k < |frames| && frames[k].TextFrame? && frames[k].id == id
  }

  predicate HasLyrics(frames: seq<Frame>) {
    exists k :: 0 <= k < |frames| && frames[k].LyricsFrame?
  }

  predicate HasCover(frames: seq<Frame>) {
    exists k :: 0 <= k < |frames| && frames[k].CoverFrame?
  }

  predicate Distinct(ids: seq<FrameId>) {
    forall j, k :: 0 <= j < k < |ids| ==> ids[j] != ids[k]
  }

  /** The text frames for `ids`: each carries its own field, there is one for
      exactly the listed fields that are non-empty, and no two are of one kind
      when no kind is listed twice. */
  lemma TextFramesShape(form: Form, ids: seq<FrameId>)
    ensures var r := TextFrames(form, ids);
      && (forall k :: 0 <= k < |r| ==> r[k].TextFrame? && r[k].id in ids && r[k].text == FieldOf(form, r[k].id))
      && (forall id :: HasText(r, id) <==> id in ids && FieldOf(form, id) != "")
      && (Distinct(ids) ==> forall j, k :: 0 <= j < k < |r| ==> r[j].id != r[k].id)
  {
    TextFramesElements(form, ids);
    assert FramesFrom(form, ids, TextFrames(form, ids));
    TextFramesPresence(form, ids);
    if Distinct(ids) {
      TextFramesDistinct(form, ids);
    }
  }

  /** Every frame of `r` is a text frame of one of the kinds `ids`, carrying
      that kind's field. */
  predicate FramesFrom(form: Form, ids: seq<FrameId>, r: seq<Frame>) {
    forall k :: 0 <= k < |r| ==> r[k].TextFrame? && r[k].id in ids && r[k].text == FieldOf(form, r[k].id)
  }

  lemma {:induction false} TextFramesElements(form: Form, ids: seq<FrameId>)
    ensures FramesFrom(form, ids, TextFrames(form, ids))
    decreases |ids|
  {
    if ids != [] {
      var init, last := ids[..|ids| - 1], ids[|ids| - 1];
      TextFramesElements(form, init);
      var r0, t := TextFrames(form, init), TextFrameFor(form, last);
      assert ids == init + [last];
      FramesFromAppend(form, ids, r0, t);
    }
  }

  lemma FramesFromAppend(form: Form, ids: seq<FrameId>, r0: seq<Frame>, t: seq<Frame>)
    requires ids != [] && FramesFrom(form, ids[..|ids| - 1], r0) && t == TextFrameFor(form, ids[|ids| - 1])
    ensures FramesFrom(form, ids, r0 + t)
  {
    var r := r0 + t;
    forall k | 0 <= k < |r| ensures r[k].TextFrame? && r[k].id in ids && r[k].text == FieldOf(form, r[k].id) {
      if k < |r0| {
        assert r[k] == r0[k];
        assert r0[k].id in ids[..|ids| - 1];
      } else {
        assert r[k] == t[0];
      }
    }
  }

  lemma {:induction false} TextFramesPresence(form: Form, ids: seq<FrameId>)
    ensures forall id :: HasText(TextFrames(form, ids), id) <==> id in ids && FieldOf(form, id) != ""
    decreases |ids|
  {
    if ids != [] {
      var init, last := ids[..|ids| - 1], ids[|ids| - 1];
      TextFramesPresence(form, init);
      var r0, t := TextFrames(form, init), TextFrameFor(form, last);
      var r := r0 + t;
      assert ids == init + [last];
      forall id ensures HasText(r, id) <==> id in ids && FieldOf(form, id) != "" {
        if HasText(r, id) {
          var k :| 0 <= k < |r| && r[k].TextFrame? && r[k].id == id;
          if k < |r0| {
            assert r0[k] == r[k];
            assert HasText(r0, id);
          } else {
            assert r[k] == t[0];
          }
        }
        if id in ids && FieldOf(form, id) != "" {
          if id in init {
            var k :| 0 <= k < |r0| && r0[k].TextFrame? && r0[k].id == id;
            assert r[k] == r0[k];
          } else {
            assert r[|r0|] == t[0];
          }
        }
      }
    }
  }

  /** No two frames of `r` are text frames of one kind. */
  predicate DistinctKinds(r: seq<Frame>) {
    forall j, k :: 0 <= j < k < |r| ==> r[j].TextFrame? && r[k].TextFrame? && r[j].id != r[k].id
  }

  lemma {:induction false} TextFramesDistinct(form: Form, ids: seq<FrameId>)
    requires Distinct(ids)
    ensures DistinctKinds(TextFrames(form, ids))
    decreases |ids|
  {
    if ids != [] {
      var init, last := ids[..|ids| - 1], ids[|ids| - 1];
      assert forall j :: 0 <= j < |init| ==> init[j] == ids[j];
      assert last !in init;
      assert Distinct(init);
      TextFramesDistinct(form, init);
      TextFramesElements(form, init);
      DistinctAppend(form, init, last, TextFrames(form, init), TextFrameFor(form, last));
    }
  }

  lemma DistinctAppend(form: Form, init: seq<FrameId>, last: FrameId, r0: seq<Frame>, t: seq<Frame>)
    requires last !in init && FramesFrom(form, init, r0) && t == TextFrameFor(form, last)
    requires DistinctKinds(r0)
    ensures DistinctKinds(r0 + t)
  {
    var r := r0 + t;
    forall j, k | 0 <= j < k < |r| ensures r[j].TextFrame? && r[k].TextFrame? && r[j].id != r[k].id {
      assert r[j] == r0[j];
      if k < |r0| {
        assert r[k] == r0[k];
      } else {
        assert r[k] == t[0];
      }
    }
  }

  /** The five kinds, each listed once. */
  lemma TextOrderComplete()
    ensures Distinct(TextOrder) && forall id :: id in TextOrder
  {
    forall id ensures id in TextOrder {
      match id
      case TIT2 => assert TextOrder[0] == id;
      case TPE1 => assert TextOrder[1] == id;
      case TALB => assert TextOrder[2] == id;
      case TDRC => assert TextOrder[3] == id;
      case TCON => assert TextOrder[4] == id;
    }
  }

  /** What the tag holds: each text frame exactly when its field is
      non-empty, carrying that field, and never two of one kind; lyrics
      exactly when there are some other than the placeholder, never the
      placeholder; the cover exactly when there is a picture. */
  lemma FramesForShape(form: Form, lyrics: string, art: Option<Bytes>)
    ensures var frames := FramesFor(form, lyrics, art);
      && (forall id :: HasText(frames, id) <==> FieldOf(form, id) != "")
      && (forall k :: 0 <= k < |frames| && frames[k].TextFrame? ==> frames[k].text == FieldOf(form, frames[k].id))
      && (forall j, k :: 0 <= j < k < |frames| && frames[j].TextFrame? && frames[k].TextFrame? ==> frames[j].id != frames[k].id)
      && (HasLyrics(frames) <==> lyrics != "" && lyrics != Lyrics.Placeholder)
      && (forall k :: 0 <= k < |frames| && frames[k].LyricsFrame? ==> frames[k].text == lyrics && frames[k].text != Lyrics.Placeholder)
      && (HasCover(frames) <==> art.Some?)
      && (forall k :: 0 <= k < |frames| && frames[k].CoverFrame? ==> frames[k] == Cover(art.value))
  {
    TextOrderComplete();
    FramesShape(form, TextOrder, lyrics, art);
  }

  /** When lyrics were not found, the box holds the placeholder; saving
      then adds no lyrics frame. */
  lemma PlaceholderNotTagged(form: Form, art: Option<Bytes>)
    ensures !HasLyrics(FramesFor(form, Strip(Lyrics.Placeholder + "\n"), art))
  {
    var p := Lyrics.Placeholder;
    assert p[0] == 'N' && p[|p| - 1] == '.';
    assert AllSpace("\n");
    StripPadded("", p, "\n");
    assert "" + p + "\n" == p + "\n";
    FramesForShape(form, p, art);
  }

  /** `FramesForShape` for any order of the kinds listing each once. */
  lemma FramesShape(form: Form, ids: seq<FrameId>, lyrics: string, art: Option<Bytes>)
    requires Distinct(ids) && forall id :: id in ids
    ensures var frames := TextFrames(form, ids) + LyricsFrames(lyrics) + CoverFrames(art);
      && (forall id :: HasText(frames, id) <==> FieldOf(form, id) != "")
      && (forall k :: 0 <= k < |frames| && frames[k].TextFrame? ==> frames[k].text == FieldOf(form, frames[k].id))
      && (forall j, k :: 0 <= j < k < |frames| && frames[j].TextFrame? && frames[k].TextFrame? ==> frames[j].id != frames[k].id)
      && (HasLyrics(frames) <==> lyrics != "" && lyrics != Lyrics.Placeholder)
      && (forall k :: 0 <= k < |frames| && frames[k].LyricsFrame? ==> frames[k].text == lyrics && frames[k].text != Lyrics.Placeholder)
      && (HasCover(frames) <==> art.Some?)
      && (forall k :: 0 <= k < |frames| && frames[k].CoverFrame? ==> frames[k] == Cover(art.value))
  {
    var texts := TextFrames(form, ids);
    TextFramesShape(form, ids);
    assert forall id :: HasText(texts, id) <==> FieldOf(form, id) != "";
    TextsThenOthers(form, texts, lyrics, art);
    OthersAfterTexts(texts, lyrics, art);
  }

  /** The lyrics frame and the cover after the text frames change nothing
      about the text frames. */
  lemma TextsThenOthers(form: Form, texts: seq<Frame>, lyrics: string, art: Option<Bytes>)
    requires forall k :: 0 <= k < |texts| ==> texts[k].TextFrame? && texts[k].text == FieldOf(form, texts[k].id)
    requires forall id :: HasText(texts, id) <==> FieldOf(form, id) != ""
    requires forall j, k :: 0 <= j < k < |texts| ==> texts[j].id != texts[k].id
    ensures var frames := texts + LyricsFrames(lyrics) + CoverFrames(art);
      && (forall id :: HasText(frames, id) <==> FieldOf(form, id) != "")
      && (forall k :: 0 <= k < |frames| && frames[k].TextFrame? ==> frames[k].text == FieldOf(form, frames[k].id))
      && (forall j, k :: 0 <= j < k < |frames| && frames[j].TextFrame? && frames[k].TextFrame? ==> frames[j].id != frames[k].id)
  {
    var rest := LyricsFrames(lyrics) + CoverFrames(art);
    var frames := texts + rest;
    assert texts + LyricsFrames(lyrics) + CoverFrames(art) == frames;
    assert forall k :: 0 <= k < |rest| ==> !rest[k].TextFrame?;
    assert forall k :: 0 <= k < |frames| && frames[k].TextFrame? ==> k < |texts| && frames[k] == texts[k];
    forall id ensures HasText(frames, id) <==> HasText(texts, id) {
      if HasText(texts, id) {
        var k :| 0 <= k < |texts| && texts[k].TextFrame? && texts[k].id == id;
        assert frames[k] == texts[k];
      }
    }
  }

  /** The lyrics frame and the cover after the text frames. */
  lemma OthersAfterTexts(texts: seq<Frame>, lyrics: string, art: Option<Bytes>)
    requires forall k :: 0 <= k < |texts| ==> texts[k].TextFrame?
    ensures var frames := texts + LyricsFrames(lyrics) + CoverFrames(art);
      && (HasLyrics(frames) <==> lyrics != "" && lyrics != Lyrics.Placeholder)
      && (forall k :: 0 <= k < |frames| && frames[k].LyricsFrame? ==> frames[k].text == lyrics && frames[k].text != Lyrics.Placeholder)
      && (HasCover(frames) <==> art.Some?)
      && (forall k :: 0 <= k < |frames| && frames[k].CoverFrame? ==> frames[k] == Cover(art.value))
  {
    var lyric, cover := LyricsFrames(lyrics), CoverFrames(art);
    var frames := texts + lyric + cover;
    assert forall k :: 0 <= k < |frames| ==>
      (k < |texts| ==> frames[k] == texts[k]) &&
      (|texts| <= k < |texts| + |lyric| ==> frames[k] == lyric[0]) &&
      (|texts| + |lyric| <= k ==> frames[k] == cover[0]);
    if lyric != [] {
      assert frames[|texts|] == lyric[0];
    }
    if cover != [] {
      assert frames[|frames| - 1] == cover[0];
    }
  }

  /** The text frames of the five kinds, one kind after the other. */
  lemma TextOrderFrames(form: Form)
    ensures TextFrames(form, TextOrder) ==
      TextFrameFor(form, TIT2) + TextFrameFor(form, TPE1) + TextFrameFor(form, TALB) +
      TextFrameFor(form, TDRC) + TextFrameFor(form, TCON)
  {
    var l1, l2, l3, l4 := [TIT2], [TIT2, TPE1], [TIT2, TPE1, TALB], [TIT2, TPE1, TALB, TDRC];
    assert TextFrames(form, l1) == TextFrameFor(form, TIT2) by {
      assert l1[..0] == [];
    }
    assert TextFrames(form, l2) == TextFrames(form, l1) + TextFrameFor(form, TPE1) by {
      assert l2[..1] == l1;
    }
    assert TextFrames(form, l3) == TextFrames(form, l2) + TextFrameFor(form, TALB) by {
      assert l3[..2] == l2;
    }
    assert TextFrames(form, l4) == TextFrames(form, l3) + TextFrameFor(form, TDRC) by {
      assert l4[..3] == l3;
    }
    assert TextFrames(form, TextOrder) == TextFrames(form, l4) + TextFrameFor(form, TCON) by {
      assert TextOrder[..4] == l4;
    }
  }

  /** `if field: tags.add(Frame(text=field))` for one text frame. */
  method AddTextFrame(tags: Id3, form: Form, id: FrameId)
    modifies tags
    ensures tags.frames == old(tags.frames) + TextFrameFor(form, id)
  {
    var value := FieldOf(form, id);
    if value != "" {
      tags.Add(TextFrame(id, value));
    }
  }

  /** The lyrics frame, added unless the lyrics are empty or the placeholder. */
  method AddLyricsFrame(tags: Id3, lyrics: string)
    modifies tags
    ensures tags.frames == old(tags.frames) + LyricsFrames(lyrics)
  {
    if lyrics != "" && lyrics != Lyrics.Placeholder {
      tags.Add(LyricsFrame("eng", "", lyrics));
    }
  }

  /** The text frames added one field after the other, in tag order. */
  lemma TextChain(form: Form, f1: seq<Frame>, f2: seq<Frame>, f3: seq<Frame>, f4: seq<Frame>, f5: seq<Frame>)
    requires f1 == [] + TextFrameFor(form, TIT2) && f2 == f1 + TextFrameFor(form, TPE1)
    requires f3 == f2 + TextFrameFor(form, TALB) && f4 == f3 + TextFrameFor(form, TDRC)
    requires f5 == f4 + TextFrameFor(form, TCON)
    ensures f5 == TextFrames(form, TextOrder)
  {
    TextOrderFrames(form);
    assert [] + TextFrameFor(form, TIT2) == TextFrameFor(form, TIT2);
  }

  /** `_set_metadata`: builds the tag frame by frame. `lyricsBox` is the
      lyrics box's content (Tk appends a newline when it is read), `selected`
      the chosen artwork, `video` the selected search result. */
  method SetMetadata(form: Form, lyricsBox: string, selected: Option<Bytes>, video: Option<Video>,
                     get: string -> Response, search: string -> ItunesAnswer)
    returns (frames: seq<Frame>, hasArt: bool)
    ensures var art := AlbumArtForTags(selected, video, form, get, search);
      frames == FramesFor(form, Strip(lyricsBox + "\n"), art) && hasArt == art.Some?
  {
    var tags := new Id3();
    AddTextFrame(tags, form, TIT2);
    ghost var f1 := tags.frames;
    AddTextFrame(tags, form, TPE1);
    ghost var f2 := tags.frames;
    AddTextFrame(tags, form, TALB);
    ghost var f3 := tags.frames;
    AddTextFrame(tags, form, TDRC);
    ghost var f4 := tags.frames;
    AddTextFrame(tags, form, TCON);
    TextOrderFrames(form);
    TextChain(form, f1, f2, f3, f4, tags.frames);
    var lyricsText := Strip(lyricsBox + "\n");
    AddLyricsFrame(tags, lyricsText);
    hasArt := AddAlbumArtToTags(tags, selected, video, form, get, search);
    frames := tags.frames;
  }
}
