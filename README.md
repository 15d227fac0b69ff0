# MusicLibraryExtender, modelled in Dafny

MusicLibraryExtender is a desktop tool written as one Python/Tk file, `app.py`. It searches YouTube through
yt-dlp and shows the results. It guesses title and artist from the selected video. It looks up album, year,
genre and cover art on MusicBrainz, the Cover Art Archive and iTunes, and fetches lyrics from Genius,
MusixMatch or Lyrics.ovh. It downloads the audio as MP3 and writes ID3 tags into it.

This project models the deterministic core of that program and proves what each step promises:

- how a search answer becomes result records (`search.dfy`);
- how title and artist are inferred from a video title (`title.dfy`);
- the lookups and the form updates they post, including the genre whitelist, the year and the iTunes URLs
  (`metadata.dfy`);
- the artwork candidates, the current choice, the counter and the selector dialog, as classes whose fields
  change in place (`artwork.dfy`);
- the lyrics fallback and the text clean-ups (`lyrics.dfy`);
- the file name, save path, download URL and status line (`download.dfy`);
- the ID3 frames written and the cover-art precedence (`tagging.dfy`).

`text.dfy` holds the Python string operations these need: `strip`, `in`, `find`, `split`, `join`,
`replace`, `lower`, and integer/string conversion. The smaller files hold shared types: `wrappers.dfy`
(Option, Result), `http.dfy` (bytes, a GET response) and `widgets.dfy` (the form's entry fields).

The network, the clock, threads and PIL are outside the model:

- Each HTTP exchange is an input. It is either a `Response` value (raised, or status plus body), or a
  function `get: string -> Response` from URL to response.
- The iTunes and Cover Art Archive JSON answers are small datatypes.
- Whether PIL can open an image is a predicate `opens: Bytes -> bool`.
- `html.unescape` and the Unicode-class regex rewrites of the lyrics clean-up are function parameters.

Two behaviours of the code are worth stating because they follow from the threads:

- The two lookups run on their own threads and each posts plain `set` calls, so for a field both set the
  last answer to arrive wins. `Metadata.LastLookupWins` and `Metadata.ArrivalOrderMatters` state this.
- Not every artwork that arrives is selected:
  - iTunes art is always selected;
  - the MusicBrainz front cover is selected only when nothing is selected yet;
  - additional images and the video thumbnail are never selected.

## Model

| member | source | states |
|---|---|---|
| Text.FindFirst | app.py:500 | The index found is an occurrence, and no earlier index is; there is one exactly when the text contains the pattern. |
| Text.Strip | app.py:415 | The result has no surrounding whitespace, and it is a part of the input with only whitespace before and after it. |
| Text.StripIdempotent | app.py:415 | Stripping a stripped text changes nothing. |
| Text.StripPadded | app.py:1202 | Whitespace around a text without surrounding whitespace is removed exactly. |
| Text.Split | app.py:500 | There is at least one piece, and no piece contains the separator. There is more than one piece exactly when the separator occurs. |
| Text.Join | app.py:504 | No contract of its own (`str.join`); stated by `Text.JoinSplit` and `Text.JoinLength`. |
| Text.JoinSplit | app.py:500-504 | Joining the pieces of a split with the same separator gives back the text. |
| Text.SplitTail | app.py:1137 | The first piece is the text before the first separator, and the other pieces joined are the text after it. |
| Text.ReplaceAll | app.py:822 | No contract of its own (`str.replace`); stated by `Text.ReplaceWithout`, `Text.ReplaceIsSplitJoin` and `Text.ReplaceLength`. |
| Text.ReplaceWithout | app.py:822 | A text in which the pattern does not occur is unchanged. |
| Text.ReplaceIsSplitJoin | app.py:1200 | `replace` is splitting on the pattern and joining with the replacement. |
| Text.JoinLength | app.py:504 | A join is as long as its pieces plus one separator between each two of them. |
| Text.ReplaceLength | app.py:1201 | Each replaced occurrence changes the length by the difference between the replacement and the pattern. |
| Text.ReplaceKeepsLength | app.py:641 | A replacement as long as the pattern keeps the length. |
| Text.ReplaceShrinks | app.py:1199-1200 | A shorter replacement never lengthens the text, and shortens it whenever the pattern occurs. |
| Text.ReplaceSingleChar | app.py:822 | Replacing one character by another maps that character in place. |
| Text.Lower | app.py:594 | Same length; ASCII capitals and the Kelvin sign are lowered, every other character is kept. This decides membership in the ASCII genre whitelist as `str.lower` does. |
| Text.NatToString | app.py:806 | Decimal digits, at least one, with no leading zero. |
| Text.ParseNatToString | app.py:806 | Reading the decimal text back gives the number. |
| TitleInference.GroupLength | app.py:505 | The lazy `\(.*?\)` / `\[.*?\]` match: a length it returns matches, and 0 means no length matches. |
| TitleInference.GroupUnique | app.py:505 | A bracket group matches at one length only. |
| TitleInference.NoiseLengthMatches | app.py:505 | The length taken at a position is the one match of the noise pattern there, or there is none. |
| TitleInference.RemoveNoise | app.py:505 | The result is no longer than the input; what is removed and kept is stated by the `RemoveNoise…` lemmas and `TitleInference.KeepsInertPrefix`. |
| TitleInference.RemoveNoiseKeepsPlainText | app.py:505 | Text without a closing bracket and without either literal token is left unchanged. |
| TitleInference.RemoveNoiseDropsGroup | app.py:505 | A one-line bracketed span is removed together with its brackets. |
| TitleInference.RemoveNoiseDropsTokens | app.py:505 | "Official Video" and "Lyrics" are removed wherever the scan reaches them. |
| TitleInference.KeepsInertPrefix | app.py:505 | Characters that cannot start a match are kept, in place. |
| TitleInference.RemoveNoiseSubBag | app.py:505 | The substitution only removes characters; it never adds any. |
| TitleInference.CleanTitle | app.py:505 | The cleaned title has no surrounding whitespace. |
| TitleInference.ExampleCleanTitle | app.py:509 | "Song (Live)" cleans to "Song". |
| TitleInference.SeparatorFrom | app.py:510 | Finds the leftmost `\s+by\s+` match, ignoring case, or shows there is none. |
| TitleInference.SplitOnBy | app.py:510-511 | At least one piece; more than one exactly when a separator occurs. |
| TitleInference.InferPreview | app.py:500-513 | No contract of its own; stated by `TitleInference.InferWithDash`, `TitleInference.InferWithoutSeparator` and `TitleInference.InferWithBy`. |
| TitleInference.InferWithDash | app.py:500-505 | With " - ", the artist is the stripped text before the first one. The title is everything after it, cleaned. |
| TitleInference.InferWithoutSeparator | app.py:506-509 | With no " - " and no "by", the title is the cleaned title and the channel is the artist. |
| TitleInference.InferWithBy | app.py:510-513 | With no " - " but a "by" separator, the title is the part before the first separator. The artist is the part up to the next separator. Both are stripped. |
| TitleInference.ExampleDash | app.py:498-516 | "Artist - Song (Live)" gives artist "Artist" and title "Song". |
| TitleInference.SelectVideo | app.py:515-517 | Title and artist become the inferred ones and the genre is cleared. Album and year are kept. |
| Search.SearchRequest | app.py:414-418 | A query that strips to nothing is refused; otherwise the stripped query is searched, ten results. |
| Search.TwoDigits | app.py:458 | Two digits whose value is the number. |
| Search.Clock | app.py:458 | An "MM:SS" text. |
| Search.ClockRoundTrip | app.py:458 | The clock text reads back as the position within the hour. |
| Search.ClockDropsHours | app.py:458 | Durations an hour apart show the same text. |
| Search.ClockInjective | app.py:458 | Within an hour, different durations show different texts. |
| Search.DurationText | app.py:457-458 | "Unknown" exactly when there is no duration or it is zero; otherwise the clock text. |
| Search.WatchUrl | app.py:463 | The watch URL ends in the id. |
| Search.ResolveUrl | app.py:460-463 | The entry's own truthy `webpage_url` wins. Else a truthy id gives the watch URL. The result is truthy exactly when one of the two is. |
| Search.ResolveUrlIdempotent | app.py:460-463 | Resolving twice changes nothing. |
| Search.Normalize | app.py:457-472 | Each field of the record comes from the entry's key, with the documented defaults. The record has a page URL exactly when the entry has one or an id, and the entry's own page URL is kept. |
| Search.Collect | app.py:453-473 | At most one record per entry. |
| Search.CollectProvenance | app.py:453-473 | Every record is the normalised form of an entry that has an `id` key. |
| Search.CollectAppend | app.py:453-473 | Over entries that all have an `id` key, collecting distributes over concatenation. |
| Search.CollectStops | app.py:453-473 | The first entry without an `id` key ends the loop: nothing after it is collected. |
| Search.CollectAllPresent | app.py:453-473 | When every entry is present and has its key, each entry gives exactly its own record, in order. |
| Search.YtdlpSearch | app.py:438-477 | The loop returns exactly the records the specification function collects. |
| Download.Sanitize | app.py:822 | Same length; every "/", "\\" and ":" becomes "-", and every other character is kept in place. |
| Download.SanitizeSafe | app.py:822 | No unsafe character remains. |
| Download.SanitizeIdempotent | app.py:822 | Sanitising twice changes nothing. |
| Download.SanitizeKeepsSafe | app.py:822 | A name with nothing unsafe is unchanged. |
| Download.FileName | app.py:822-823 | The name is the sanitised "artist - title" followed by ".mp3", and it contains no "/". |
| Download.SanitizeAppend | app.py:822 | Sanitising distributes over concatenation: each part is sanitised on its own. |
| Download.ExampleSanitize | app.py:822 | "AC/DC" becomes "AC-DC". |
| Download.JoinPath | app.py:823 | `os.path.join`: an absolute name replaces the directory. A relative name follows the directory directly when it is empty or ends in "/", and after one added "/" otherwise. |
| Download.Basename | app.py:867-869 | The base name is the end of the path after its last "/": a suffix with no "/", preceded by a "/" unless it is the whole path. |
| Download.BasenameOfJoin | app.py:823 | The base name of a joined path is the slash-free name. |
| Download.SavePath | app.py:813-828 | No path without a selection. With one, the path is the file name joined to the library directory: it starts with the directory and its base name is the file name. |
| Download.DownloadUrl | app.py:832-837 | Success exactly when `webpage_url` or `id` is truthy; otherwise the documented error message. The URL agrees with the search's fallback. |
| Download.DownloadUrlOfResult | app.py:832-837 | For a record from the search, the download uses the URL the search resolved. |
| Download.DownloadOutcome | app.py:830-878 | A status line exactly when there was a URL and the MP3 was produced: "Download complete: " or, when tagging failed, "Download complete but metadata failed: ", followed by the file's base name. Otherwise the error box gets "Download error: " followed by the missing-URL message, the missing-file message or the download's own error message. |
| Metadata.ExtractYear | app.py:585-587 | A year exactly when the date starts with four digits; it is those four digits. |
| Metadata.WhitelistSize | app.py:595-597 | The whitelist has 18 distinct genres. |
| Metadata.IsGenreTag | app.py:592-597 | No contract of its own; stated by `Metadata.GenreNamesMembers` and `Metadata.GenreNamesWhitelisted`. |
| Metadata.GenreNames | app.py:590-598 | No more names than tags; stated by `Metadata.GenreNamesMembers`, `Metadata.GenreNamesAppend`, `Metadata.GenreNamesWhitelisted` and `Metadata.CollectGenres`. |
| Metadata.GenreNamesMembers | app.py:589-598 | A name is collected exactly when some tag with that name is a genre tag. |
| Metadata.GenreNamesAppend | app.py:589-598 | Collection keeps the order of the tags. |
| Metadata.GenreNamesWhitelisted | app.py:592-598 | Every collected name is non-empty and lower-cases to a whitelisted genre. |
| Metadata.CollectGenres | app.py:590-598 | The loop collects exactly the genre names. |
| Metadata.GenreField | app.py:600-601 | No update without genres; otherwise the first two names joined by ", ". |
| Metadata.Apply | app.py:580-601 | Title and artist are unchanged; each other field takes its update if there is one. |
| Metadata.LastLookupWins | app.py:569-601 | A field set by the later lookup has the later value. |
| Metadata.ArrivalOrderMatters | app.py:569-601 | Two lookups that disagree on the album give different forms in the two arrival orders. |
| Metadata.MusicBrainzLookup | app.py:575-606 | Nothing without a recording. From the first release: its title as the album when non-empty, the year read from its date, and its id as the release to fetch art for when non-empty; nothing of these without a release. With a tag list the genre is the genre field of its whitelisted names, so a genre is posted exactly when genre tags exist. |
| Metadata.ItunesSearchUrl | app.py:616-617 | The URL is the fixed iTunes search prefix, then "<artist> <title>" with every space turned into "+" and every other character unchanged, then the fixed suffix. It contains no space. |
| Metadata.UpgradeArtworkUrl | app.py:641 | The URL split at each "100x100", re-joined with "600x600". Same length; a URL holding "100x100" is changed, and one without it is unchanged. |
| Metadata.ItunesLookup | app.py:613-650 | A raised request posts nothing; a non-200 reply shows "Error fetching iTunes metadata", a count of 0 shows "No iTunes metadata found", and a positive count with no result posts nothing. Otherwise "Metadata found from iTunes", with the first result's non-empty `collectionName` as album, the year read from a non-empty `releaseDate`, the non-empty `primaryGenreName` as genre, and the upgraded non-empty `artworkUrl100` as the artwork to fetch. |
| Lyrics.LyricsRequest | app.py:1028-1045 | A lookup starts exactly when a song is selected and the stripped artist and title are non-empty. It uses the stripped values. Both refusals give their messages. |
| Lyrics.FirstTruthy | app.py:1052-1062 | A text is found exactly when some answer is non-empty. It is the first such answer in service order, with that service. |
| Lyrics.FirstTruthyIgnoresLater | app.py:1052-1062 | Answers after the first non-empty one do not matter. |
| Lyrics.FetchLyricsThread | app.py:1047-1069 | Returns the fallback's outcome. The services consulted are a prefix of the order, and each consulted service but the last gave no text. |
| Lyrics.NoTripleContains | app.py:1199 | "No three newlines in a row" is the loop's exit test. |
| Lyrics.NewlineRun | app.py:1111 | The length of the leading run of newlines. |
| Lyrics.CollapseNewlines | app.py:1111 | The result is no longer than the input; stated by `Lyrics.CollapseShape`, `Lyrics.CollapseKeeps`, `Lyrics.CollapseIdempotent` and `Lyrics.CollapseLoop`. |
| Lyrics.CollapseShape | app.py:1111 | `re.sub(r'\n{3,}', '\n\n')` leaves no three newlines in a row, and keeps whether the text starts with a newline. |
| Lyrics.CollapseKeeps | app.py:1111 | A text with no three newlines in a row is unchanged by the substitution. |
| Lyrics.CollapseIdempotent | app.py:1111 | Collapsing twice is collapsing once. |
| Lyrics.ReplacePassKeepsCollapse | app.py:1199-1200 | One `replace` pass does not change what the text collapses to. |
| Lyrics.CollapseLoop | app.py:1199-1200 | The `while` loop ends, and gives the same text as the regex substitution. |
| Lyrics.CollapseAndStrip | app.py:1111-1112 | The tidied text has no surrounding whitespace and no three newlines in a row. |
| Lyrics.TagLength | app.py:1107 | The `<[^>]+>` match at the start of the text, or none. |
| Lyrics.RemoveTags | app.py:1107 | Never longer than the input. |
| Lyrics.RemoveTagsKeepsPlain | app.py:1107 | Text without "<" is unchanged. |
| Lyrics.RemoveTagsSubBag | app.py:1107 | Removing tags only removes characters. |
| Lyrics.BreaksToNewlines | app.py:1103-1105 | Turning the three break spellings into newlines never lengthens the text, and a text without any of them is unchanged. |
| Lyrics.GeniusLyrics | app.py:1096-1113 | Lyrics exactly when a page had containers. The text is tidied: no surrounding whitespace and no three newlines in a row. |
| Lyrics.TruncateMusixmatch | app.py:1136-1137 | With both "..." and "Paroles", the result is the stripped text before the first "..." followed by "..."; otherwise the text is kept. |
| Lyrics.TruncatedShape | app.py:1136-1137 | The truncated text ends in "..." and contains no earlier "...". |
| Lyrics.MusixmatchLyrics | app.py:1132-1139 | A text exactly when the body had one, truncated. |
| Lyrics.LineCountNewlines | app.py:1185 | The number of lines is the number of newlines plus one. |
| Lyrics.LineCount | app.py:1185 | There is at least one line; `Lyrics.LineCountNewlines` gives the exact count. |
| Lyrics.Prepared | app.py:1169-1197 | No contract of its own; the rewrites are parameters and the line-count gates are the code's. Used by `Lyrics.UpdateLyricsUi`. |
| Lyrics.UpdateLyricsUi | app.py:1165-1215 | With lyrics, the box shows the prepared text collapsed and stripped, and the status names the source. Without lyrics, it shows the placeholder and "No lyrics found". |
| Lyrics.FetchAndShow | app.py:1047-1069 | From the three answers to the box: the first non-empty answer decides the text and the status. |
| Tagging.Id3.constructor | app.py:893 | A new tag has no frames. |
| Tagging.Id3.Add | app.py:897 | The frame is appended. |
| Tagging.AlbumArtForTags | app.py:958-1022 | The selected artwork wins. Else a thumbnail that answers 200 gives its content, and one whose request raises gives nothing. Otherwise there is a picture exactly when the iTunes search gives an artwork URL whose request answers 200, and it is that answer's content. |
| Tagging.ItunesArtUrl | app.py:994-1002 | A URL exactly when the reply is 200 with a positive count, a first result and a non-empty `artworkUrl100`. It is the upgraded URL. |
| Tagging.ThumbnailBeforeItunes | app.py:973-988 | When the thumbnail request answers 200 or raises, the iTunes search plays no part. |
| Tagging.AddAlbumArtToTags | app.py:958-1022 | The cover frame is appended exactly when there is a picture, and the result says so. |
| Tagging.TextFramesShape | app.py:895-918 | The text frames carry their fields. Each kind appears exactly when its field is non-empty, and at most once. |
| Tagging.TextOrderComplete | app.py:895-918 | The five kinds are added once each. |
| Tagging.FramesFor | app.py:895-932 | No contract of its own; stated by `Tagging.FramesForShape` and `Tagging.SetMetadata`. |
| Tagging.FramesForShape | app.py:895-932 | A text frame exactly when its field is non-empty, carrying that field, never two of one kind. Lyrics exactly when non-empty and not the placeholder. A cover exactly when there is a picture. |
| Tagging.PlaceholderNotTagged | app.py:921-922 | A lyrics box holding the placeholder adds no lyrics frame. |
| Tagging.AddTextFrame | app.py:896-917 | Appends the field's frame when the field is non-empty. |
| Tagging.AddLyricsFrame | app.py:921-928 | Appends the lyrics frame when the lyrics are non-empty and not the placeholder. |
| Tagging.SetMetadata | app.py:880-934 | The frames written are the specification's frames for the form, the stripped lyrics box and the chosen picture. It reports whether a picture was added. |
| Artwork.FirstWithData | app.py:800-804 | The first candidate with the given image, if any. |
| Artwork.CounterIndex | app.py:798-804 | No contract of its own; stated by `Artwork.CounterShowsSelection`, `Artwork.ArtworkState.CounterPointsAtSelection` and `Artwork.ArtworkState.CurrentIndex`. |
| Artwork.CounterLabel | app.py:798-811 | No contract of its own; stated by `Artwork.CounterShowsSelection` and `Artwork.ArtworkState.UpdateCounter`. |
| Artwork.ArtworkState.CounterPointsAtSelection | app.py:796-806 | In a valid state with several candidates and a choice, the counter's index is a candidate holding the chosen image, and the first such. |
| Artwork.CounterShowsSelection | app.py:796-806 | With several candidates the counter reads "Click to choose (p/n)" with p one more than the counter index, between 1 and n. The index is the first position of the selected image, or 0 when it is not among them. |
| Artwork.ValidOptionsMembers | app.py:531-537 | The dialog is offered exactly the candidates with data. |
| Artwork.ValidOptionsAppend | app.py:531-537 | The filter keeps the candidates' order. |
| Artwork.FilterValid | app.py:531-537 | The loop keeps exactly the valid candidates. |
| Artwork.ValidOptions | app.py:531-537 | No more candidates than given; stated by `Artwork.ValidOptionsMembers`, `Artwork.ValidOptionsAppend` and `Artwork.FilterValid`. |
| Artwork.ArtworkSelectorDialog.constructor | app.py:20-38 | The dialog holds the list, and nothing is selected. |
| Artwork.ArtworkSelectorDialog.SelectArtwork | app.py:127-130 | The index is recorded. |
| Artwork.ArtworkSelectorDialog.Cancel | app.py:132-135 | Nothing is selected. |
| Artwork.RunDialog | app.py:542-545 | The dialog leaves the index of the tile the user chose, and no index when the user cancelled or closed the window. |
| Artwork.ImageLabel | app.py:722 | No label exactly when the types list is empty, since indexing it raises. With no types key the label is "MusicBrainz (Additional)"; otherwise it is "MusicBrainz (" followed by the first type and ")". |
| Artwork.AdditionalPlanSources | app.py:714-723 | At most one fetch per image, each for a non-front image with a URL, labelled by its types. |
| Artwork.AdditionalPlanComplete | app.py:714-723 | When no eligible image has an empty types list, every eligible image is fetched. |
| Artwork.FrontSkipped | app.py:716-717 | The front cover is skipped. |
| Artwork.AdditionalPlan | app.py:714-723 | No contract of its own; stated by `Artwork.AdditionalPlanSources`, `Artwork.AdditionalPlanComplete`, `Artwork.FrontSkipped` and `Artwork.PlanAdditional`. |
| Artwork.PlanAdditional | app.py:715-723 | The loop plans exactly the fetches of the specification. |
| Artwork.ArtworkState.constructor | app.py:174 | No candidates, nothing chosen, an empty counter. |
| Artwork.ArtworkState.CurrentIndex | app.py:799-804 | The loop finds the counter's index. |
| Artwork.ArtworkState.UpdateCounter | app.py:796-811 | The counter shows the label of the current candidates and choice. |
| Artwork.ArtworkState.StartLookup | app.py:563-567 | A new lookup clears the candidates, the choice and the counter. |
| Artwork.ArtworkState.FetchItunesArt | app.py:652-677 | With 200, the image is chosen and appended, and the counter is updated once the image opens. Otherwise nothing changes. The choice stays among the candidates. |
| Artwork.ArtworkState.FetchAlbumArt | app.py:679-727 | With 200, the front cover is appended and chosen only when nothing was chosen. If it was chosen and does not open, the method stops there. Otherwise the counter is updated and the other images are planned. The choice stays among the candidates. |
| Artwork.ArtworkState.FetchAdditionalArt | app.py:729-744 | With 200, the image is appended, never chosen, and the counter is updated. |
| Artwork.ArtworkState.LoadThumbnail | app.py:746-794 | The thumbnail is appended, never chosen, only when it has a URL, answers 200 and opens. |
| Artwork.ArtworkState.ShowArtworkSelector | app.py:526-557 | With several candidates, a choice within the valid range selects that valid candidate, and "Selected i/n" is shown once it opens. Anything else changes nothing. |

## Left out

- The Tk widgets, message boxes, cursor changes and the settings file (`load_settings`, `save_settings`, `choose_library`) are left out: they are presentation and configuration, not logic.
- Threads and `root.after` are left out. Each callback is a separate method call. The `Valid()` invariant of `Artwork.ArtworkState` is proved per call, not under interleaving.
- The network is left out. Every request's outcome is an input, and a JSON decoding error counts as a raised request.
- yt-dlp's download, the temporary directory and the copy are left out. Their outcome is an input of `Download.DownloadOutcome`.
- `mutagen` is left out: deleting old tags, saving, verifying by re-reading and the `encoding=3` field. `ID3.add` replaces a frame with the same key. The model appends, which is the same here because each kind is added at most once (`Tagging.FramesForShape`).
- PIL decoding, resizing and the photo image are left out. Whether the image opens is the predicate `opens`.
- `html.unescape` and the Unicode-class rewrites of `_update_lyrics_ui` are left out. They are parameters: the section markers, the sentence split, the bracket break and the aggressive split. The gates on line counts and length are modelled.
- The `except` around the clean-up in `_update_lyrics_ui` is left out: a rewrite is assumed not to raise.
- Building the Genius, MusixMatch and Lyrics.ovh requests and the Genius section search are left out. What each service returned is an input: the lyrics containers, the MusixMatch body and the Lyrics.ovh text.
- Search.FoundStatus and Metadata.MusicBrainzQuery: these only format text, so they have no contract.
- Search.Normalize: a key that is present with the value `None` for `title` or `uploader` yields the default, as for a missing key. Python would keep `None`.
- Search.Clock: takes whole seconds. yt-dlp can report a float duration, which `gmtime` truncates.
- Search.Collect: states only the count bound in its own contract. What the records are is stated by `Search.CollectProvenance`, `Search.CollectStops` and `Search.CollectAllPresent`.
- Metadata.IsGenreTag: the count of a MusicBrainz tag is a number. `musicbrainzngs` delivers it as a string, and then `tag.get('count', 0) > 0` at app.py:592 would raise a TypeError. The `except` at app.py:605 would then skip the genre and the start of `_fetch_album_art`, while the album and year posted before it remain. `Metadata.MusicBrainzLookup` describes the program for a numeric count: its genre and release-id clauses do not hold for a string count.
- Metadata.ExtractYear: `\d` is read as ASCII digits only. Python also accepts other Unicode digits.
- Download.JoinPath and Download.Basename follow POSIX `os.path` only.
- Text.Lower: lowers only A-Z and the Kelvin sign. Python's `str.lower` also lowers other letters, for example "É" to "é", and can lengthen a text ("İ"). For the ASCII genre whitelist, the only use, the membership test comes out the same.
- Artwork.ImageLabel: a `types` key present with the value `null` is treated like a missing key.
- Artwork.AdditionalPlan: a `null` image list is not modelled. Such a reply is read as having no `images` key.
- Metadata.UpgradeArtworkUrl: that no "100x100" remains afterwards is not proved. It needs an argument that no new occurrence can straddle an inserted "600x600", which the split/join characterisation does not give directly.
- Lyrics.RemoveTags: states the length bound, the plain-text case and that only characters are removed. That no complete tag remains is not proved.
