/** Title and artist inference from a search result (`_update_preview`):
    split the video title on " - ", otherwise fall back to the channel name
    and a case-insensitive "by" split, and clean the title of bracketed
    spans and the literal tokens "Official Video" and "Lyrics". */
module TitleInference {
  import opened Wrappers
  import opened Text
  import opened Widgets

  // ------------------------------------------------------------------------
  // The noise pattern  \(.*?\)|\[.*?\]|Official Video|Lyrics

  /** A lazy bracket group at the start of `s`, `n` characters long: `open`,
      then characters that are neither `close` nor a newline (`.` does not
      match a newline), then the first `close`. */
  predicate GroupAt(s: string, open: char, close: char, n: int) {
    2 <= n <= |s| && s[0] == open && s[n - 1] == close
    && forall k :: 1 <= k < n - 1 ==> s[k] != close && s[k] != '\n'
  }

  /** The noise pattern matches the first `n` characters of `s`. The four
      alternatives start with different characters, so at most one applies. */
  predicate NoiseAt(s: string, n: int) {
    || GroupAt(s, '(', ')', n)
    || GroupAt(s, '[', ']', n)
    || (n == 14 && |s| >= 14 && s[..14] == "Official Video")
    || (n == 6 && |s| >= 6 && s[..6] == "Lyrics")
  }

  /** Scans a bracket group from index `k` for its closing character. */
  function GroupLength(s: string, open: char, close: char, k: nat): (n: nat)
    requires 1 <= k <= |s| && s[0] == open && open != close
    requires forall j :: 1 <= j < k ==> s[j] != close && s[j] != '\n'
    ensures n > 0 ==> GroupAt(s, open, close, n)
    ensures n == 0 ==> forall m :: !GroupAt(s, open, close, m)
    decreases |s| - k
  {
    if k == |s| then 0
    else if s[k] == close then k + 1
    else if s[k] == '\n' then (assert forall m :: GroupAt(s, open, close, m) ==> m - 1 < k; 0)
    else GroupLength(s, open, close, k + 1)
  }

  /** Two lengths both matching a bracket group are equal: the match is the
      shortest one. */
  lemma GroupUnique(s: string, open: char, close: char, n: int, m: int)
    requires GroupAt(s, open, close, n) && GroupAt(s, open, close, m)
    ensures n == m
  {
  }

  /** Length of the noise match at the start of `s`, 0 when there is none. */
  function NoiseLength(s: string): (n: nat)
    ensures n <= |s|
  {
    if |s| == 0 then 0
    else if s[0] == '(' then GroupLength(s, '(', ')', 1)
    else if s[0] == '[' then GroupLength(s, '[', ']', 1)
    else if |s| >= 14 && s[..14] == "Official Video" then 14
    else if |s| >= 6 && s[..6] == "Lyrics" then 6
    else 0
  }

  /** NoiseLength is the regex engine's match at the start of `s`: a positive
      length is a match and the only one, and 0 means nothing matches there. */
  lemma NoiseLengthMatches(s: string)
    ensures NoiseLength(s) > 0 ==> NoiseAt(s, NoiseLength(s)) && forall m :: NoiseAt(s, m) ==> m == NoiseLength(s)
    ensures NoiseLength(s) == 0 ==> forall m :: !NoiseAt(s, m)
  {
    var n := NoiseLength(s);
    if |s| > 0 && (s[0] == '(' || s[0] == '[') {
      var close := if s[0] == '(' then ')' else ']';
      assert forall m :: NoiseAt(s, m) ==> GroupAt(s, s[0], close, m);
      if n > 0 {
        forall m | GroupAt(s, s[0], close, m) ensures m == n { GroupUnique(s, s[0], close, n, m); }
      }
    }
  }

  /** `re.sub(r'\(.*?\)|\[.*?\]|Official Video|Lyrics', '', s)`: scan left to
      right; where the pattern matches, drop the match and go on after it,
      otherwise keep one character and go on with the next. */
  function RemoveNoise(s: string): (r: string)
    ensures |r| <= |s|
    decreases |s|
  {
    if |s| == 0 then ""
    else
      var n := NoiseLength(s);
      if n > 0 then RemoveNoise(s[n..]) else [s[0]] + RemoveNoise(s[1..])
  }

  /** The title cleaning step: remove the noise, then `strip()`. */
  function CleanTitle(t: string): (r: string)
    ensures Trimmed(r)
  {
    Strip(RemoveNoise(t))
  }

  lemma ContainsTail(s: string, p: string)
    requires |s| > 0 && Contains(s[1..], p)
    ensures Contains(s, p)
  {
    assert OccursAt(s, s[1..], 1);
    ContainsTransitive(s, s[1..], p);
  }

  /** Text with no closing bracket and neither literal token is left as it is;
      in particular an unmatched "(" or "[" stays in the string. */
  lemma {:induction false} RemoveNoiseKeepsPlainText(s: string)
    requires forall k :: 0 <= k < |s| ==> s[k] != ')' && s[k] != ']'
    requires !Contains(s, "Official Video") && !Contains(s, "Lyrics")
    ensures RemoveNoise(s) == s
    decreases |s|
  {
    if |s| > 0 {
      assert !OccursAt(s, "Official Video", 0) && !OccursAt(s, "Lyrics", 0);
      assert NoiseLength(s) == 0 by {
        if s[0] == '(' || s[0] == '[' {
          var close := if s[0] == '(' then ')' else ']';
          assert !GroupAt(s, s[0], close, GroupLength(s, s[0], close, 1));
        }
      }
      if Contains(s[1..], "Official Video") { ContainsTail(s, "Official Video"); }
      if Contains(s[1..], "Lyrics") { ContainsTail(s, "Lyrics"); }
      RemoveNoiseKeepsPlainText(s[1..]);
    }
  }

  /** A parenthesised or bracketed span on one line is dropped with its brackets,
      up to the first closing bracket. */
  lemma RemoveNoiseDropsGroup(open: char, close: char, inner: string, rest: string)
    requires (open, close) == ('(', ')') || (open, close) == ('[', ']')
    requires forall k :: 0 <= k < |inner| ==> inner[k] != close && inner[k] != '\n'
    ensures RemoveNoise([open] + inner + [close] + rest) == RemoveNoise(rest)
  {
    var s := [open] + inner + [close] + rest;
    var n := |inner| + 2;
    assert GroupAt(s, open, close, n);
    assert NoiseLength(s) == n by {
      var g := GroupLength(s, open, close, 1);
      assert g == 0 || GroupAt(s, open, close, g);
      if g != 0 { GroupUnique(s, open, close, g, n); }
    }
    assert s[n..] == rest;
  }

  /** The literal tokens are dropped wherever the scan reaches them. */
  lemma RemoveNoiseDropsTokens(rest: string)
    ensures RemoveNoise("Official Video" + rest) == RemoveNoise(rest)
    ensures RemoveNoise("Lyrics" + rest) == RemoveNoise(rest)
  {
    var a, b := "Official Video" + rest, "Lyrics" + rest;
    assert a[..14] == "Official Video" && a[14..] == rest;
    assert b[..6] == "Lyrics" && b[6..] == rest;
  }

  /** A character with which no alternative of the pattern begins. */
  predicate Inert(c: char) { c != '(' && c != '[' && c != 'O' && c != 'L' }

  /** A character that cannot begin a match is kept, in place. */
  lemma InertHead(s: string)
    requires |s| > 0 && Inert(s[0])
    ensures RemoveNoise(s) == [s[0]] + RemoveNoise(s[1..])
  {
    assert |s| >= 14 ==> s[..14][0] == s[0];
    assert |s| >= 6 ==> s[..6][0] == s[0];
  }

  /** A prefix of such characters is kept as it is. */
  lemma {:induction false} KeepsInertPrefix(s: string, k: nat)
    requires k <= |s| && forall j :: 0 <= j < k ==> Inert(s[j])
    ensures RemoveNoise(s) == s[..k] + RemoveNoise(s[k..])
  {
    if k > 0 {
      KeepsInertPrefix(s, k - 1);
      InertStep(s, k);
      SnocAppend(s[..k - 1], s[k - 1], RemoveNoise(s[k..]));
      PrefixSnoc(s, k);
    }
  }

  lemma PrefixSnoc(s: string, k: nat)
    requires 0 < k <= |s|
    ensures s[..k - 1] + [s[k - 1]] == s[..k]
  {
  }

  lemma InertStep(s: string, k: nat)
    requires 0 < k <= |s| && Inert(s[k - 1])
    ensures RemoveNoise(s[k - 1..]) == [s[k - 1]] + RemoveNoise(s[k..])
  {
    var u := s[k - 1..];
    InertHead(u);
    assert u[1..] == s[k..];
  }

  lemma SnocAppend(a: string, c: char, x: string)
    ensures a + ([c] + x) == (a + [c]) + x
  {
  }

  /** The result is made only of characters of the input: nothing is added. */
  lemma {:induction false} RemoveNoiseSubBag(s: string)
    ensures multiset(RemoveNoise(s)) <= multiset(s)
    decreases |s|
  {
    if |s| > 0 {
      var n := NoiseLength(s);
      assert s == s[..n] + s[n..];
      assert s == [s[0]] + s[1..];
      if n > 0 {
        RemoveNoiseSubBag(s[n..]);
        assert multiset(s) == multiset(s[..n]) + multiset(s[n..]);
      } else {
        RemoveNoiseSubBag(s[1..]);
        assert multiset(s) == multiset([s[0]]) + multiset(s[1..]);
      }
    }
  }

  // ------------------------------------------------------------------------
  // The secondary split  re.split(r'\s+by\s+', title, flags=re.IGNORECASE)

  predicate IsB(c: char) { c == 'b' || c == 'B' }

  predicate IsY(c: char) { c == 'y' || c == 'Y' }

  /** `\s+by\s+` (ignoring case) matches `s[a..b]` with "by" at `m`. The first
      `\s+` necessarily stops at the "b"; the last one is greedy, so the match
      ends where that whitespace run ends. */
  predicate SeparatorAt(s: string, a: int, m: int, b: int) {
    && 0 <= a < m
    && m + 2 < b <= |s|
    && AllSpace(s[a..m]) && IsB(s[m]) && IsY(s[m + 1]) && AllSpace(s[m + 2..b])
    && (b == |s| || !IsSpace(s[b]))
  }

  /** The end of the whitespace run that starts at `i`. */
  function SpaceEnd(s: string, i: nat): (j: nat)
    requires i <= |s|
    ensures i <= j <= |s| && AllSpace(s[i..j]) && (j == |s| || !IsSpace(s[j]))
    decreases |s| - i
  {
    if i < |s| && IsSpace(s[i]) then SpaceEnd(s, i + 1) else i
  }

  lemma SpaceEndUnique(s: string, i: nat, j: nat)
    requires i <= j <= |s| && AllSpace(s[i..j]) && (j == |s| || !IsSpace(s[j]))
    ensures SpaceEnd(s, i) == j
    decreases |s| - i
  {
    if i < j {
      SpaceRunTail(s, i, j);
      SpaceEndUnique(s, i + 1, j);
    }
  }

  lemma SpaceRunTail(s: string, i: nat, j: nat)
    requires i < j <= |s| && AllSpace(s[i..j])
    ensures IsSpace(s[i]) && AllSpace(s[i + 1..j])
  {
    assert s[i..j][0] == s[i];
    assert s[i + 1..j] == s[i..j][1..];
  }

  /** The leftmost separator match starting at or after `start`, as the regex
      engine finds it. */
  function SeparatorFrom(s: string, start: nat): (r: Option<(nat, nat, nat)>)
    requires start <= |s|
    ensures r.Some? ==> start <= r.value.0 && SeparatorAt(s, r.value.0, r.value.1, r.value.2)
    ensures forall a, m, b :: start <= a && (r.None? || a < r.value.0) ==> !SeparatorAt(s, a, m, b)
    decreases |s| - start
  {
    if start == |s| then None
    else
      var m := SpaceEnd(s, start);
      if IsSpace(s[start]) && m + 2 < |s| && IsB(s[m]) && IsY(s[m + 1]) && IsSpace(s[m + 2]) then
        var b := SpaceEnd(s, m + 2);
        Some((start, m, b))
      else
        assert forall m', b' :: !SeparatorAt(s, start, m', b') by {
          forall m', b' | SeparatorAt(s, start, m', b') ensures false {
            assert IsSpace(s[m' + 2]) by { assert s[m' + 2..b'][0] == s[m' + 2]; }
            SpaceEndUnique(s, start, m');
          }
        }
        SeparatorFrom(s, start + 1)
  }

  /** `re.split(r'\s+by\s+', s, flags=re.IGNORECASE)`: the pieces between the
      successive leftmost matches. */
  function SplitOnBy(s: string): (parts: seq<string>)
    ensures |parts| >= 1
    ensures |parts| > 1 <==> SeparatorFrom(s, 0).Some?
    decreases |s|
  {
    match SeparatorFrom(s, 0)
    case None => [s]
    case Some((a, m, b)) => [s[..a]] + SplitOnBy(s[b..])
  }

  // ------------------------------------------------------------------------
  // The inference

  datatype Preview = Preview(title: string, artist: string)

  /** Lines 500-513 of `_update_preview`. */
  function InferPreview(videoTitle: string, channel: string): Preview {
    var titleParts := Split(videoTitle, " - ");
    if |titleParts| > 1 then
      Preview(CleanTitle(Strip(Join(titleParts[1..], " - "))), Strip(titleParts[0]))
    else
      var title := CleanTitle(Strip(titleParts[0]));
      var parts := SplitOnBy(title);
      if |parts| > 1 then Preview(Strip(parts[0]), Strip(parts[1])) else Preview(title, channel)
  }

  /** With a " - " in the video title, the artist is the text before the first
      one, stripped, and the title is all the text after it (later " - "
      included), cleaned and stripped; the channel plays no part. */
  lemma InferWithDash(videoTitle: string, channel: string, i: nat)
    requires FindFirst(videoTitle, " - ") == Some(i)
    ensures InferPreview(videoTitle, channel).artist == Strip(videoTitle[..i])
    ensures InferPreview(videoTitle, channel).title == CleanTitle(Strip(videoTitle[i + 3..]))
  {
    SplitTail(videoTitle, " - ");
  }

  /** Without " - ", the title is cleaned first. If the cleaned title has no
      "by" separator, it is the title and the channel is the artist. */
  lemma InferWithoutSeparator(videoTitle: string, channel: string)
    requires !Contains(videoTitle, " - ")
    requires SeparatorFrom(CleanTitle(Strip(videoTitle)), 0).None?
    ensures InferPreview(videoTitle, channel) == Preview(CleanTitle(Strip(videoTitle)), channel)
  {
  }

  /** Without " - " but with a "by" separator in the cleaned title, the title
      is the text before the leftmost separator and the artist the text after
      it up to the next separator (any further pieces are dropped), both
      stripped. */
  lemma InferWithBy(videoTitle: string, channel: string, a: nat, m: nat, b: nat)
    requires !Contains(videoTitle, " - ")
    requires SeparatorFrom(CleanTitle(Strip(videoTitle)), 0) == Some((a, m, b))
    ensures var t := CleanTitle(Strip(videoTitle));
      && InferPreview(videoTitle, channel).title == Strip(t[..a])
      && InferPreview(videoTitle, channel).artist ==
         Strip(match SeparatorFrom(t[b..], 0)
               case None => t[b..]
               case Some((a2, _, _)) => t[b..][..a2])
  {
    var t := CleanTitle(Strip(videoTitle));
    InferWithoutDash(videoTitle, channel);
    SplitOnByStep(t);
    assert SeparatorFrom(t, 0).value == (a, m, b);
    SplitOnByHead(t[b..]);
  }

  /** Without " - ", the preview comes from the "by" split of the cleaned
      video title. */
  lemma InferWithoutDash(videoTitle: string, channel: string)
    requires !Contains(videoTitle, " - ")
    ensures var t := CleanTitle(Strip(videoTitle));
      var parts := SplitOnBy(t);
      InferPreview(videoTitle, channel) ==
        if |parts| > 1 then Preview(Strip(parts[0]), Strip(parts[1])) else Preview(t, channel)
  {
    SplitWithout(videoTitle, " - ");
  }

  /** Without the separator, `split` gives the whole text as its one piece. */
  lemma SplitWithout(s: string, sep: string)
    requires |sep| > 0 && !Contains(s, sep)
    ensures Split(s, sep) == [s]
  {
  }

  /** Splitting at the leftmost "by" separator: the text before it, then the
      split of the text after it. */
  lemma SplitOnByStep(s: string)
    requires SeparatorFrom(s, 0).Some?
    ensures var r := SeparatorFrom(s, 0).value;
      r.2 <= |s| && SplitOnBy(s) == [s[..r.0]] + SplitOnBy(s[r.2..])
  {
  }

  /** The first piece of a "by" split ends at the leftmost separator. */
  lemma SplitOnByHead(s: string)
    ensures var r := SeparatorFrom(s, 0);
      SplitOnBy(s)[0] == if r.None? then s else s[..r.value.0]
  {
  }

  /** Removing the noise from "Song (Live)" leaves "Song " (the space stays). */
  lemma ExampleRemoveNoise()
    ensures RemoveNoise("Song (Live)") == "Song "
  {
    RemoveNoiseDropsGroup('(', ')', "Live", "");
    assert "(Live)" == ['('] + "Live" + [')'] + "";
    var s := "Song (Live)";
    KeepsInertPrefix(s, 5);
    assert s[..5] == "Song " && s[5..] == ['('] + "Live" + [')'] + "";
  }

  /** Cleaning "Song (Live)" drops the parenthesised span and the space before it. */
  lemma ExampleCleanTitle()
    ensures CleanTitle("Song (Live)") == "Song"
  {
    ExampleRemoveNoise();
    assert "Song " == "Song" + " ";
    CleanPadded("Song (Live)", "Song", " ");
  }

  /** Noise removal that leaves a trimmed text and trailing whitespace cleans
      to that text. */
  lemma CleanPadded(s: string, t: string, w: string)
    requires RemoveNoise(s) == t + w && Trimmed(t) && AllSpace(w)
    ensures CleanTitle(s) == t
  {
    StripPadded("", t, w);
    assert "" + t + w == t + w;
  }

  /** The first " - " of "Artist - Song (Live)" is at index 6. */
  lemma ExampleFindDash()
    ensures FindFirst("Artist - Song (Live)", " - ") == Some(6)
  {
    var v := "Artist - Song (Live)";
    assert OccursAt(v, " - ", 6);
    forall i | 0 <= i < 6 ensures !OccursAt(v, " - ", i) {
      assert v[i] != ' ' by { assert i == 0 || i == 1 || i == 2 || i == 3 || i == 4 || i == 5; }
      assert v[i..i + 3][0] == v[i];
    }
  }

  /** The example "Artist - Song (Live)": artist "Artist", title "Song". */
  lemma ExampleDash()
    ensures InferPreview("Artist - Song (Live)", "Channel") == Preview("Song", "Artist")
  {
    ExampleDashFor("Artist - Song (Live)", "Channel");
  }

  lemma ExampleDashFor(v: string, ch: string)
    requires v == "Artist - Song (Live)"
    ensures InferPreview(v, ch) == Preview("Song", "Artist")
  {
    ExampleDashPieces(v);
    StripTrimmed("Artist");
    StripTrimmed("Song (Live)");
    ExampleCleanTitle();
    ExampleFindDash();
    InferWithDash(v, ch, 6);
  }

  lemma ExampleDashPieces(v: string)
    requires v == "Artist - Song (Live)"
    ensures v[..6] == "Artist" && v[9..] == "Song (Live)"
  {
  }

  /** The form after a video is selected: title and artist replaced, genre
      cleared; album and year keep whatever the previous lookup left. */
  function SelectVideo(form: Form, videoTitle: string, channel: string): (f: Form)
    ensures f.album == form.album && f.year == form.year && f.genre == ""
    ensures Preview(f.title, f.artist) == InferPreview(videoTitle, channel)
  {
    var p := InferPreview(videoTitle, channel);
    form.(title := p.title, artist := p.artist, genre := "")
  }
}
