/** The artwork candidates of the main window (`artwork_options`), the
    chosen one (`album_art_data`) and the counter under the thumbnail
    (`artwork_counter_var`), with the methods that fill and change them, and
    the selector dialog. Network answers are inputs; whether PIL can open a
    byte string is the predicate `opens`. */
module Artwork {
  import opened Wrappers
  import opened Text
  import opened Http

  /** One candidate: where it came from and the image bytes. */
  datatype ArtworkOption = ArtworkOption(source: string, data: Bytes)

  /** The selector offers a candidate only when its data is non-empty (every
      candidate the window builds has both keys). */
  predicate IsValid(option: ArtworkOption) {
    option.data != []
  }

  // ------------------------------------------------------------------------
  // The counter

  /** The first candidate whose data is `data`. */
  function FirstWithData(options: seq<ArtworkOption>, data: Bytes): (r: Option<nat>)
    ensures r.Some? <==> exists k :: 0 <= k < |options| && options[k].data == data
    ensures r.Some? ==>
      && r.value < |options| && options[r.value].data == data
      && forall k :: 0 <= k < r.value ==> options[k].data != data
  {
    if options == [] then None
    else if options[0].data == data then Some(0)
    else
      match FirstWithData(options[1..], data)
      case None => None
      case Some(k) => Some(k + 1)
  }

  /** The index `_update_artwork_counter` shows: the first candidate holding
      the chosen image, and 0 when nothing is chosen or no candidate holds it. */
  function CounterIndex(options: seq<ArtworkOption>, selected: Option<Bytes>): nat {
    if selected.None? then 0 else FirstWithData(options, selected.value).GetOr(0)
  }

  /** The counter text: "Click to choose (i/n)" when there is more than one
      candidate, empty otherwise. */
  function CounterLabel(options: seq<ArtworkOption>, selected: Option<Bytes>): string {
    if |options| > 1 then
      ChooseLabel(CounterIndex(options, selected) + 1, |options|)
    else ""
  }

  /** "Click to choose (p/n)" */
  function ChooseLabel(p: nat, n: nat): string {
    "Click to choose (" + NatToString(p) + "/" + NatToString(n) + ")"
  }

  /** "Selected p/n" */
  function SelectedLabel(p: nat, n: nat): string {
    "Selected " + NatToString(p) + "/" + NatToString(n)
  }

  /** The counter shows a position between 1 and the number of candidates,
      and that position holds the chosen image whenever one candidate does;
      otherwise it shows the first. */
  lemma CounterShowsSelection(options: seq<ArtworkOption>, selected: Option<Bytes>)
    requires |options| > 1
    ensures 1 <= CounterIndex(options, selected) + 1 <= |options|
    ensures CounterLabel(options, selected) == ChooseLabel(CounterIndex(options, selected) + 1, |options|)
    ensures selected.Some? && (exists k :: 0 <= k < |options| && options[k].data == selected.value) ==>
      options[CounterIndex(options, selected)].data == selected.value &&
      forall k :: 0 <= k < CounterIndex(options, selected) ==> options[k].data != selected.value
    ensures selected.None? || (forall k :: 0 <= k < |options| ==> options[k].data != selected.value) ==>
      CounterIndex(options, selected) == 0
  {
    var i := CounterIndex(options, selected);
    assert 1 <= i + 1 <= |options|;
    assert CounterLabel(options, selected) == ChooseLabel(i + 1, |options|);
  }

  // ------------------------------------------------------------------------
  // The selector

  /** The candidates the selector offers, in their order. */
  function ValidOptions(options: seq<ArtworkOption>): (valid: seq<ArtworkOption>)
    ensures |valid| <= |options|
  {
    if options == [] then []
    else (if IsValid(options[0]) then [options[0]] else []) + ValidOptions(options[1..])
  }

  /** Filtering keeps exactly the valid candidates ... */
  lemma {:induction false} ValidOptionsMembers(options: seq<ArtworkOption>)
    ensures forall o :: o in ValidOptions(options) <==> o in options && IsValid(o)
    decreases |options|
  {
    if options != [] {
      ValidOptionsMembers(options[1..]);
      assert options == [options[0]] + options[1..];
    }
  }

  /** A valid candidate's picture is one of the candidates' pictures. */
  lemma ValidChoice(options: seq<ArtworkOption>, i: int)
    requires 0 <= i < |ValidOptions(options)|
    ensures exists k :: 0 <= k < |options| && options[k].data == ValidOptions(options)[i].data
  {
    ValidOptionsMembers(options);
    var o := ValidOptions(options)[i];
    assert o in ValidOptions(options);
    var k :| 0 <= k < |options| && options[k] == o;
  }

  /** ... and keeps their order: it works piece by piece. */
  lemma {:induction false} ValidOptionsAppend(a: seq<ArtworkOption>, b: seq<ArtworkOption>)
    ensures ValidOptions(a + b) == ValidOptions(a) + ValidOptions(b)
    decreases |a|
  {
    if a == [] {
      assert a + b == b;
    } else {
      ValidOptionsAppend(a[1..], b);
      AppendTail(a, b);
      ValidOptionsCons(a);
      ValidOptionsCons(a + b);
      AppendAssoc(ValidHead(a), ValidOptions(a[1..]), ValidOptions(b));
    }
  }

  /** The first candidate, if it is valid. */
  function ValidHead(options: seq<ArtworkOption>): seq<ArtworkOption>
    requires options != []
  {
    if IsValid(options[0]) then [options[0]] else []
  }

  lemma ValidOptionsCons(options: seq<ArtworkOption>)
    requires options != []
    ensures ValidOptions(options) == ValidHead(options) + ValidOptions(options[1..])
  {
  }

  lemma AppendTail(a: seq<ArtworkOption>, b: seq<ArtworkOption>)
    requires a != []
    ensures (a + b)[0] == a[0] && (a + b)[1..] == a[1..] + b
  {
  }

  /** The loop of `show_artwork_selector` that collects the valid candidates. */
  method FilterValid(options: seq<ArtworkOption>) returns (valid: seq<ArtworkOption>)
    ensures valid == ValidOptions(options)
  {
    valid := [];
    for i := 0 to |options|
      invariant valid == ValidOptions(options[..i])
    {
      assert options[..i + 1] == options[..i] + [options[i]];
      ValidOptionsAppend(options[..i], [options[i]]);
      if IsValid(options[i]) {
        valid := valid + [options[i]];
      }
    }
    assert options[..|options|] == options;
  }

  /** What the user did in the dialog. */
  datatype DialogAction = Choose(index: int) | CancelDialog | CloseWindow

  /** `ArtworkSelectorDialog`: the candidates it shows and the index the
      user picked (`None` until one is picked). */
  class ArtworkSelectorDialog {
    var artworkList: seq<ArtworkOption>
    var selectedIndex: Option<int>

    constructor(artworkList: seq<ArtworkOption>)
      ensures this.artworkList == artworkList && selectedIndex == None
    {
      this.artworkList := artworkList;
      selectedIndex := None;
    }

    /** `select_artwork`: a tile's "Select" button. */
    method SelectArtwork(index: int)
      modifies this
      ensures selectedIndex == Some(index) && artworkList == old(artworkList)
    {
      selectedIndex := Some(index);
    }

    /** `cancel`: the "Cancel" button. */
    method Cancel()
      modifies this
      ensures selectedIndex == None && artworkList == old(artworkList)
    {
      selectedIndex := None;
    }
  }

  /** The modal dialog over `valid`, ended by the user's action: the index it
      leaves, if a tile was chosen. */
  method RunDialog(valid: seq<ArtworkOption>, action: DialogAction) returns (choice: Option<int>)
    ensures choice == if action.Choose? then Some(action.index) else None
  {
    var dialog := new ArtworkSelectorDialog(valid);
    match action {
      case Choose(index) => dialog.SelectArtwork(index);
      case CancelDialog => dialog.Cancel();
      case CloseWindow =>
    }
    choice := dialog.selectedIndex;
  }

  // ------------------------------------------------------------------------
  // Additional Cover Art Archive images

  /** One entry of the archive's 'images' list: whether 'front' is True, its
      'image' URL if the key is there, its 'types' if the key is there. */
  datatype CoverImage = CoverImage(front: bool, image: Option<string>, types: Option<seq<string>>)

  /** The answer to the archive's image list: the request or the JSON
      decoding raised, or a reply with its status and 'images' if present. */
  datatype ImagesAnswer = ImagesRaised | ImagesReply(status: int, images: Option<seq<CoverImage>>)

  /** A fetch `_fetch_album_art` starts: the URL and the source label. */
  datatype ArtRequest = ArtRequest(url: string, source: string)

  /** The label of an additional image: its first type, "Additional" when it
      has no 'types', in "MusicBrainz (...)"; `None` when 'types' is empty and indexing it raises. */
  function ImageLabel(types: Option<seq<string>>): (name: Option<string>)
    ensures name.None? <==> types == Some([])
    ensures types.None? ==> name == Some("MusicBrainz (Additional)")
    ensures types.Some? && types.value != [] ==> name == Some("MusicBrainz (" + types.value[0] + ")")
  {
    match types
    case None => Some("MusicBrainz (Additional)")
    case Some(ts) => if ts == [] then None else Some("MusicBrainz (" + ts[0] + ")")
  }

  /** The fetches started for the images: front covers and entries without
      an image are skipped, and an entry with an empty 'types' list stops
      the loop (the exception ends it). */
  function AdditionalPlan(images: seq<CoverImage>): seq<ArtRequest> {
    if images == [] then []
    else if images[0].front || images[0].image.None? then AdditionalPlan(images[1..])
    else
      match ImageLabel(images[0].types)
      case None => []
      case Some(name) => [ArtRequest(images[0].image.value, name)] + AdditionalPlan(images[1..])
  }

  /** Every fetch is of a non-front image of the list, labelled as coming
      from MusicBrainz, and there are no more fetches than images. */
  lemma {:induction false} AdditionalPlanSources(images: seq<CoverImage>)
    ensures |AdditionalPlan(images)| <= |images|
    ensures forall r :: r in AdditionalPlan(images) ==>
      exists j :: 0 <= j < |images| && !images[j].front && images[j].image == Some(r.url) &&
        Some(r.source) == ImageLabel(images[j].types)
    decreases |images|
  {
    if images != [] {
      AdditionalPlanSources(images[1..]);
      forall r | r in AdditionalPlan(images[1..])
        ensures exists j ::
          && 0 <= j < |images| && !images[j].front && images[j].image == Some(r.url)
          && Some(r.source) == ImageLabel(images[j].types)
      {
        var j :| 0 <= j < |images[1..]| && !images[1..][j].front && images[1..][j].image == Some(r.url) &&
          Some(r.source) == ImageLabel(images[1..][j].types);
        assert images[j + 1] == images[1..][j];
      }
    }
  }

  /** The images that yield a fetch when none stops the loop. */
  function Eligible(images: seq<CoverImage>): nat {
    if images == [] then 0
    else (if !images[0].front && images[0].image.Some? then 1 else 0) + Eligible(images[1..])
  }

  /** When no eligible image has an empty 'types', every eligible image is
      fetched. */
  lemma {:induction false} AdditionalPlanComplete(images: seq<CoverImage>)
    requires forall j :: 0 <= j < |images| && !images[j].front && images[j].image.Some? ==> images[j].types != Some([])
    ensures |AdditionalPlan(images)| == Eligible(images)
    decreases |images|
  {
    if images != [] {
      assert forall j :: 0 <= j < |images[1..]| ==> images[1..][j] == images[j + 1];
      AdditionalPlanComplete(images[1..]);
    }
  }

  /** A front cover is never fetched again as an additional image. */
  lemma FrontSkipped(front: CoverImage, rest: seq<CoverImage>)
    requires front.front
    ensures AdditionalPlan([front] + rest) == AdditionalPlan(rest)
  {
    assert ([front] + rest)[1..] == rest;
  }

  // ------------------------------------------------------------------------
  // The window's artwork state

  class ArtworkState {
    var options: seq<ArtworkOption>
    var selected: Option<Bytes>
    var counter: string

    /** The chosen image is always one of the candidates. */
    ghost predicate Valid()
      reads this
    {
      selected.Some? ==> exists k :: 0 <= k < |options| && options[k].data == selected.value
    }

    /** In a valid state the chosen image is among the candidates, so a
        counter over several candidates points at the first one holding it. */
    lemma CounterPointsAtSelection()
      requires Valid() && |options| > 1 && selected.Some?
      ensures CounterIndex(options, selected) < |options|
      ensures options[CounterIndex(options, selected)].data == selected.value
      ensures forall k :: 0 <= k < CounterIndex(options, selected) ==> options[k].data != selected.value
      ensures counter == CounterLabel(options, selected) ==>
        counter == ChooseLabel(CounterIndex(options, selected) + 1, |options|)
    {
      CounterShowsSelection(options, selected);
    }

    /** `__init__`: no candidates, nothing chosen, an empty counter. */
    constructor()
      ensures options == [] && selected == None && counter == "" && Valid()
    {
      options := [];
      selected := None;
      counter := "";
    }

    /** The `for`/`break` search of `_update_artwork_counter`. */
    method CurrentIndex() returns (index: nat)
      ensures index == CounterIndex(options, selected)
    {
      index := 0;
      if selected.Some? {
        for i := 0 to |options|
          invariant index == 0
          invariant forall k :: 0 <= k < i ==> options[k].data != selected.value
        {
          if options[i].data == selected.value {
            index := i;
            break;
          }
        }
      }
    }

    /** `_update_artwork_counter` */
    method UpdateCounter()
      modifies this`counter
      ensures counter == CounterLabel(options, selected)
    {
      if |options| > 1 {
        var index := CurrentIndex();
        counter := ChooseLabel(index + 1, |options|);
      } else {
        counter := "";
      }
    }

    /** `_fetch_metadata`: a new lookup drops every candidate, the choice and
        the counter. */
    method StartLookup()
      modifies this
      ensures options == [] && selected == None && counter == "" && Valid()
    {
      options := [];
      counter := "";
      selected := None;
    }

    /** `_fetch_itunes_art`: with status 200 the image is chosen, whatever
        was chosen before, and becomes a candidate; the counter is updated
        once the image opens. Any other answer changes nothing. */
    method FetchItunesArt(response: Response, opens: Bytes -> bool)
      requires Valid()
      modifies this
      ensures Valid()
      ensures response.Ok() ==>
        options == old(options) + [ArtworkOption("iTunes", response.content)] &&
        selected == Some(response.content) &&
        counter == if opens(response.content) then CounterLabel(options, selected) else old(counter)
      ensures !response.Ok() ==> options == old(options) && selected == old(selected) && counter == old(counter)
    {
      if response.Ok() {
        selected := Some(response.content);
        options := options + [ArtworkOption("iTunes", response.content)];
        assert options[|options| - 1].data == selected.value;
        if opens(response.content) {
          UpdateCounter();
        }
      }
    }

    /** `_fetch_album_art`: with status 200 the front cover becomes a
        candidate, and is chosen only when nothing is chosen yet. When it was
        chosen it has to open; if it does not, the method ends there (the
        counter is not updated and no further image is fetched). Otherwise
        the counter is updated and the fetches of the release's other images
        are returned. */
    method FetchAlbumArt(response: Response, opens: Bytes -> bool, images: ImagesAnswer)
      returns (requests: seq<ArtRequest>)
      requires Valid()
      modifies this
      ensures Valid()
      ensures response.Ok() ==>
        options == old(options) + [ArtworkOption("MusicBrainz", response.content)] &&
        selected == (if old(selected).None? then Some(response.content) else old(selected))
      ensures response.Ok() && (old(selected).Some? || opens(response.content)) ==>
        counter == CounterLabel(options, selected) &&
        requests == (if images.ImagesReply? && images.status == 200 && images.images.Some?
                     then AdditionalPlan(images.images.value) else [])
      ensures response.Ok() && old(selected).None? && !opens(response.content) ==>
        counter == old(counter) && requests == []
      ensures !response.Ok() ==>
        options == old(options) && selected == old(selected) && counter == old(counter) && requests == []
    {
      requests := [];
      if response.Ok() {
        var artData := response.content;
        options := options + [ArtworkOption("MusicBrainz", artData)];
        assert options[|options| - 1].data == artData;
        assert forall k :: 0 <= k < |old(options)| ==> options[k] == old(options)[k];
        if selected.None? {
          selected := Some(artData);
          if !opens(artData) {
            return;
          }
        }
        UpdateCounter();
        if images.ImagesReply? && images.status == 200 && images.images.Some? {
          requests := PlanAdditional(images.images.value);
        }
      }
    }

    /** `_fetch_additional_art`: with status 200 the image becomes a
        candidate, never the choice, and the counter is updated. */
    method FetchAdditionalArt(response: Response, source: string)
      requires Valid()
      modifies this
      ensures Valid() && selected == old(selected)
      ensures response.Ok() ==>
        options == old(options) + [ArtworkOption(source, response.content)] &&
        counter == CounterLabel(options, selected)
      ensures !response.Ok() ==> options == old(options) && counter == old(counter)
    {
      if response.Ok() {
        options := options + [ArtworkOption(source, response.content)];
        assert forall k :: 0 <= k < |old(options)| ==> options[k] == old(options)[k];
        UpdateCounter();
      }
    }

    /** `_load_thumbnail`: the video's thumbnail becomes a candidate, never
        the choice, when it has a URL, the request answers 200 and the image
        opens; then the counter is updated. */
    method LoadThumbnail(thumbnail: Option<string>, get: string -> Response, opens: Bytes -> bool)
      requires Valid()
      modifies this
      ensures Valid() && selected == old(selected)
      ensures Truthy(thumbnail) && get(thumbnail.value).Ok() && opens(get(thumbnail.value).content) ==>
        options == old(options) + [ArtworkOption("Video Thumbnail", get(thumbnail.value).content)] &&
        counter == CounterLabel(options, selected)
      ensures !(Truthy(thumbnail) && get(thumbnail.value).Ok() && opens(get(thumbnail.value).content)) ==>
        options == old(options) && counter == old(counter)
    {
      if !Truthy(thumbnail) {
        return;
      }
      var response := get(thumbnail.value);
      if !response.Ok() {
        return;
      }
      if !opens(response.content) {
        return;
      }
      options := options + [ArtworkOption("Video Thumbnail", response.content)];
      assert forall k :: 0 <= k < |old(options)| ==> options[k] == old(options)[k];
      UpdateCounter();
    }

    /** `show_artwork_selector`: with more than one candidate, offers the
        valid ones; an index the dialog returns within their range chooses
        that candidate, and once its image opens the counter says
        "Selected i/n". Anything else changes nothing. */
    method ShowArtworkSelector(action: DialogAction, opens: Bytes -> bool)
      requires Valid()
      modifies this
      ensures Valid() && options == old(options)
      ensures var valid := ValidOptions(options);
        if |options| > 1 && action.Choose? && 0 <= action.index < |valid| then
          selected == Some(valid[action.index].data) &&
          counter == if opens(valid[action.index].data)
                     then SelectedLabel(action.index + 1, |valid|)
                     else old(counter)
        else selected == old(selected) && counter == old(counter)
    {
      if |options| > 1 {
        var valid := FilterValid(options);
        if valid == [] {
          return;
        }
        var choice := RunDialog(valid, action);
        if choice.Some? && 0 <= choice.value < |valid| {
          selected := Some(valid[choice.value].data);
          ValidChoice(options, choice.value);
          if opens(valid[choice.value].data) {
            counter := SelectedLabel(choice.value + 1, |valid|);
          }
        }
      }
    }
  }

  /** The loop of `_fetch_album_art` over the release's images. */
  method PlanAdditional(images: seq<CoverImage>) returns (requests: seq<ArtRequest>)
    ensures requests == AdditionalPlan(images)
  {
    requests := [];
    var i := 0;
    while i < |images|
      invariant 0 <= i <= |images|
      invariant requests + AdditionalPlan(images[i..]) == AdditionalPlan(images)
      decreases |images| - i
    {
      var image := images[i];
      assert images[i..][1..] == images[i + 1..];
      if !image.front && image.image.Some? {
        var name := ImageLabel(image.types);
        if name.None? {
          break;
        }
        requests := requests + [ArtRequest(image.image.value, name.value)];
      }
      i := i + 1;
    }
    if i == |images| {
      assert requests == requests + AdditionalPlan(images[i..]);
    }
  }
}
