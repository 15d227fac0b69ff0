/** Lyrics: the request check in `fetch_lyrics`, the fallback over the three
    services in `_fetch_lyrics_thread`, the text processing each service's
    answer goes through, and the cleanup `_update_lyrics_ui` applies before
    showing it. The services are not modelled: what each one answered is an
    input. `html.unescape` and the Unicode-class regex rewrites of the cleanup
    are parameters. */
module Lyrics {
  import opened Wrappers
  import opened Text

  // ------------------------------------------------------------------------
  // Sources

  datatype Source = Genius | MusixMatch | LyricsOvh {
    /** The name shown in the status line. */
    function Label(): string {
      match this
      case Genius => "Genius"
      case MusixMatch => "MusixMatch"
      case LyricsOvh => "Lyrics.ovh"
    }
  }

  /** The order in which the services are consulted. */
  const Order: seq<Source> := [Genius, MusixMatch, LyricsOvh]

  /** `fetch_lyrics`: a song must be selected, and the stripped artist and
      title must both be non-empty; the lookup then uses the stripped values. */
  function LyricsRequest(selected: bool, artist: string, title: string): (r: Result<(string, string)>)
    ensures r.Ok? <==> selected && Strip(artist) != "" && Strip(title) != ""
    ensures r.Ok? ==> r.value == (Strip(artist), Strip(title))
    ensures !selected ==> r == Failure("Please select a song first")
    ensures selected && r.Failure? ==> r.error == "Artist and title are required to fetch lyrics"
  {
    if !selected then Failure("Please select a song first")
    else if Strip(artist) == "" || Strip(title) == "" then Failure("Artist and title are required to fetch lyrics")
    else Ok((Strip(artist), Strip(title)))
  }

  // ------------------------------------------------------------------------
  // The fallback

  /** The outcome of the fallback: the first answer in `Order` that is a
      non-empty text, with its source; the last answer when none is. */
  function FirstTruthy(answers: seq<Option<string>>): (r: (Option<string>, Option<Source>))
    requires |answers| == 3
    ensures Truthy(r.0) <==> exists k :: 0 <= k < 3 && Truthy(answers[k])
    ensures Truthy(r.0) ==>
      exists k :: (0 <= k < 3 && Truthy(answers[k]) && r == (answers[k], Some(Order[k])) &&
                   forall j :: 0 <= j < k ==> !Truthy(answers[j]))
  {
    if Truthy(answers[0]) then (answers[0], Some(Genius))
    else if Truthy(answers[1]) then (answers[1], Some(MusixMatch))
    else Tagged(answers[2], LyricsOvh)
  }

  /** What one service function returns: `(text, label)` or `(None, None)`. */
  function Tagged(answer: Option<string>, s: Source): (Option<string>, Option<Source>) {
    if answer.Some? then (answer, Some(s)) else (None, None)
  }

  /** The answers of the services that are not consulted do not matter. */
  lemma FirstTruthyIgnoresLater(answers: seq<Option<string>>, other: seq<Option<string>>, k: nat)
    requires |answers| == 3 && |other| == 3 && k < 3
    requires Truthy(answers[k]) && answers[..k + 1] == other[..k + 1]
    ensures FirstTruthy(answers) == FirstTruthy(other)
  {
    assert forall j :: 0 <= j <= k ==> answers[j] == answers[..k + 1][j] == other[..k + 1][j] == other[j];
  }

  /** `_fetch_lyrics_thread`: ask Genius, then MusixMatch while there is no
      text, then Lyrics.ovh while there is still none. `consulted` lists the
      services asked, in order. */
  method FetchLyricsThread(genius: Option<string>, musixmatch: Option<string>, ovh: Option<string>)
    returns (lyrics: Option<string>, source: Option<Source>, consulted: seq<Source>)
    ensures (lyrics, source) == FirstTruthy([genius, musixmatch, ovh])
    ensures 1 <= |consulted| <= 3 && consulted == Order[..|consulted|]
    ensures forall k :: 0 <= k < |consulted| - 1 ==> !Truthy([genius, musixmatch, ovh][k])
    ensures |consulted| < 3 ==> Truthy([genius, musixmatch, ovh][|consulted| - 1])
  {
    var first := Tagged(genius, Genius);
    lyrics, source := first.0, first.1;
    consulted := [Genius];
    if !Truthy(lyrics) {
      var second := Tagged(musixmatch, MusixMatch);
      lyrics, source := second.0, second.1;
      consulted := consulted + [MusixMatch];
    }
    if !Truthy(lyrics) {
      var third := Tagged(ovh, LyricsOvh);
      lyrics, source := third.0, third.1;
      consulted := consulted + [LyricsOvh];
    }
  }

  // ------------------------------------------------------------------------
  // Runs of newlines:  re.sub(r'\n{3,}', '\n\n', s)

  /** Three newlines in a row at `i`. */
  predicate TripleAt(s: string, i: int) {
    0 <= i && i + 2 < |s| && s[i] == '\n' && s[i + 1] == '\n' && s[i + 2] == '\n'
  }

  predicate NoTriple(s: string) {
    forall i :: 0 <= i < |s| ==> !TripleAt(s, i)
  }

  lemma NoTripleContains(s: string)
    ensures NoTriple(s) <==> !Contains(s, "\n\n\n")
  {
    if !NoTriple(s) {
      var i :| 0 <= i < |s| && TripleAt(s, i);
      assert s[i..i + 3] == "\n\n\n";
      assert 0 <= i <= |s| - 3 && OccursAt(s, "\n\n\n", i);
    }
    if Contains(s, "\n\n\n") {
      var i :| 0 <= i <= |s| - 3 && OccursAt(s, "\n\n\n", i);
      assert s[i..i + 3][0] == s[i] && s[i..i + 3][1] == s[i + 1] && s[i..i + 3][2] == s[i + 2];
      assert TripleAt(s, i);
    }
  }

  /** The length of the run of newlines `s` starts with. */
  function NewlineRun(s: string): (n: nat)
    ensures n <= |s| && (n == |s| || s[n] != '\n')
    ensures forall i :: 0 <= i < n ==> s[i] == '\n'
  {
    if s != [] && s[0] == '\n' then 1 + NewlineRun(s[1..]) else 0
  }

  /** `n` newlines. */
  function Newlines(n: nat): (s: string)
    ensures |s| == n && forall i :: 0 <= i < n ==> s[i] == '\n'
  {
    seq(n, _ => '\n')
  }

  /** The substitution: scanning left to right, the regex matches at the start
      of each run of three or more newlines and, being greedy, takes the whole
      run, which becomes two newlines; shorter runs and other characters are
      kept. */
  function CollapseNewlines(s: string): (r: string)
    ensures |r| <= |s|
    decreases |s|
  {
    if s == [] then []
    else if s[0] != '\n' then [s[0]] + CollapseNewlines(s[1..])
    else
      var n := NewlineRun(s);
      (if n >= 3 then "\n\n" else s[..n]) + CollapseNewlines(s[n..])
  }

  /** The result has no three newlines in a row, and starts with a newline
      exactly when the input does. */
  lemma {:induction false} CollapseShape(s: string)
    ensures var r := CollapseNewlines(s);
      && NoTriple(r)
      && (s == [] <==> r == [])
      && (s != [] ==> (r[0] == '\n' <==> s[0] == '\n'))
    decreases |s|
  {
    if s != [] {
      if s[0] != '\n' {
        CollapseShape(s[1..]);
        NoTripleCons(s[0], CollapseNewlines(s[1..]));
      } else {
        var n := NewlineRun(s);
        CollapseShape(s[n..]);
        var head := if n >= 3 then Newlines(2) else s[..n];
        assert head == if n >= 3 then "\n\n" else s[..n];
        NoTripleAfterRun(head, CollapseNewlines(s[n..]));
      }
    }
  }

  /** A character other than a newline in front keeps the property. */
  lemma NoTripleCons(c: char, rest: string)
    requires c != '\n' && NoTriple(rest)
    ensures NoTriple([c] + rest)
  {
    var r := [c] + rest;
    assert forall i :: 1 <= i < |r| && TripleAt(r, i) ==> TripleAt(rest, i - 1);
  }

  /** At most two newlines in front of a text that does not start with one
      keep the property. */
  lemma NoTripleAfterRun(head: string, rest: string)
    requires |head| <= 2 && forall i :: 0 <= i < |head| ==> head[i] == '\n'
    requires NoTriple(rest) && (rest == [] || rest[0] != '\n')
    ensures NoTriple(head + rest)
  {
    var r := head + rest;
    assert forall i :: |head| <= i < |r| && TripleAt(r, i) ==> TripleAt(rest, i - |head|);
    assert forall i :: 0 <= i < |head| ==> !TripleAt(r, i);
  }

  /** Text with no three newlines in a row is left as it is. */
  lemma {:induction false} CollapseKeeps(s: string)
    requires NoTriple(s)
    ensures CollapseNewlines(s) == s
    decreases |s|
  {
    if s != [] {
      if s[0] != '\n' {
        NoTripleTail(s, 1);
        CollapseKeeps(s[1..]);
        CollapseAtChar(s);
        SplitAt(s, 1);
      } else {
        var n := NewlineRun(s);
        ShortRun(s);
        NoTripleTail(s, n);
        CollapseKeeps(s[n..]);
        CollapseAtRun(s);
        SplitAt(s, n);
      }
    }
  }

  lemma NoTripleTail(s: string, k: nat)
    requires NoTriple(s) && k <= |s|
    ensures NoTriple(s[k..])
  {
    assert forall i :: 0 <= i < |s[k..]| && TripleAt(s[k..], i) ==> TripleAt(s, i + k);
  }

  /** Without three newlines in a row, a leading run is at most two long. */
  lemma ShortRun(s: string)
    requires NoTriple(s) && s != [] && s[0] == '\n'
    ensures NewlineRun(s) < 3
  {
    assert !TripleAt(s, 0);
  }

  /** The substitution at a character other than a newline. */
  lemma CollapseAtChar(s: string)
    requires s != [] && s[0] != '\n'
    ensures CollapseNewlines(s) == [s[0]] + CollapseNewlines(s[1..])
  {
  }

  lemma SplitAt(s: string, n: nat)
    requires n <= |s|
    ensures s == s[..n] + s[n..]
  {
  }

  /** Collapsing twice is collapsing once. */
  lemma CollapseIdempotent(s: string)
    ensures CollapseNewlines(CollapseNewlines(s)) == CollapseNewlines(s)
  {
    CollapseShape(s);
    CollapseKeeps(CollapseNewlines(s));
  }

  /** A piece not ending in a newline collapses on its own. */
  lemma {:induction false} CollapseAppend(a: string, b: string)
    requires a == [] || a[|a| - 1] != '\n'
    ensures CollapseNewlines(a + b) == CollapseNewlines(a) + CollapseNewlines(b)
    decreases |a|
  {
    if a == [] {
      assert a + b == b;
    } else if a[0] != '\n' {
      assert (a + b)[1..] == a[1..] + b;
      CollapseAppend(a[1..], b);
    } else {
      var n := NewlineRun(a);
      assert n < |a|;
      CollapseAppend(a[n..], b);
      CollapseRunAppend(a, b);
    }
  }

  /** The step of `CollapseAppend` for a piece starting with a run of newlines. */
  lemma CollapseRunAppend(a: string, b: string)
    requires a != [] && a[0] == '\n' && NewlineRun(a) < |a|
    requires CollapseNewlines(a[NewlineRun(a)..] + b) == CollapseNewlines(a[NewlineRun(a)..]) + CollapseNewlines(b)
    ensures CollapseNewlines(a + b) == CollapseNewlines(a) + CollapseNewlines(b)
  {
    var n := NewlineRun(a);
    NewlineRunPrefix(a, b);
    SlicesOfAppend(a, b, n);
    CollapseAtRun(a);
    CollapseAtRun(a + b);
    AppendAssoc(RunHead(a), CollapseNewlines(a[n..]), CollapseNewlines(b));
  }

  /** What the leading run of newlines of `s` becomes. */
  function RunHead(s: string): string {
    if NewlineRun(s) >= 3 then "\n\n" else s[..NewlineRun(s)]
  }

  /** The substitution at a leading run of newlines. */
  lemma CollapseAtRun(s: string)
    requires s != [] && s[0] == '\n'
    ensures CollapseNewlines(s) == RunHead(s) + CollapseNewlines(s[NewlineRun(s)..])
  {
  }

  lemma SlicesOfAppend(a: string, b: string, n: nat)
    requires n <= |a|
    ensures (a + b)[n..] == a[n..] + b && (a + b)[..n] == a[..n]
  {
  }

  /** The leading run of a piece that does not consist only of newlines ends
      inside that piece. */
  lemma {:induction false} NewlineRunPrefix(a: string, b: string)
    requires NewlineRun(a) < |a|
    ensures NewlineRun(a + b) == NewlineRun(a)
    decreases |a|
  {
    if a[0] == '\n' {
      assert (a + b)[1..] == a[1..] + b;
      NewlineRunPrefix(a[1..], b);
    }
  }

  /** A run of at least three newlines collapses the same whatever its length:
      one newline more or less in a run of two or more does not matter. */
  lemma RunCollapse(m: nat, u: string)
    requires m >= 2
    ensures CollapseNewlines(Newlines(m + 1) + u) == CollapseNewlines(Newlines(m) + u)
  {
    var k := NewlineRun(u);
    var a, b := Newlines(m + 1) + u, Newlines(m) + u;
    RunOfNewlines(m + 1, u);
    RunOfNewlines(m, u);
    NewlinesTail(m + 1, u, k);
    NewlinesTail(m, u, k);
    CollapseAtRun(a);
    CollapseAtRun(b);
    RunHeadLong(a);
    RunHeadLong(b);
  }

  lemma NewlinesTail(m: nat, u: string, k: nat)
    requires k <= |u|
    ensures (Newlines(m) + u)[m + k..] == u[k..]
  {
  }

  /** A leading run of two or more newlines becomes exactly two. */
  lemma RunHeadLong(s: string)
    requires NewlineRun(s) >= 2
    ensures RunHead(s) == "\n\n"
  {
    if NewlineRun(s) == 2 {
      assert s[..2][0] == '\n' && s[..2][1] == '\n';
    }
  }

  /** The run at the start of `Newlines(m) + u`. */
  lemma RunOfNewlines(m: nat, u: string)
    ensures NewlineRun(Newlines(m) + u) == m + NewlineRun(u)
    decreases m
  {
    if m > 0 {
      assert (Newlines(m) + u)[1..] == Newlines(m - 1) + u;
      RunOfNewlines(m - 1, u);
    } else {
      assert Newlines(m) + u == u;
    }
  }

  /** One pass of `replace('\n\n\n', '\n\n')` after a run of newlines does not
      change what the text collapses to. */
  lemma {:induction false} ReplacePassAfterRun(m: nat, t: string)
    ensures CollapseNewlines(Newlines(m) + ReplaceAll(t, Newlines(3), Newlines(2))) == CollapseNewlines(Newlines(m) + t)
    decreases |t|
  {
    match FindFirst(t, Newlines(3))
    case None =>
    case Some(i) =>
      var u := t[i + 3..];
      if i == 0 {
        ReplacePassAfterRun(m + 2, u);
      } else {
        ReplacePassAfterRun(2, u);
      }
      PassStep(m, t, i);
  }

  /** The step of `ReplacePassAfterRun` at the first three newlines, given
      what the pass does to the rest. */
  lemma PassStep(m: nat, t: string, i: nat)
    requires FindFirst(t, Newlines(3)) == Some(i)
    requires var u := t[i + 3..];
      i == 0 ==> CollapseNewlines(Newlines(m + 2) + ReplaceAll(u, Newlines(3), Newlines(2))) == CollapseNewlines(Newlines(m + 2) + u)
    requires var u := t[i + 3..];
      i > 0 ==> CollapseNewlines(Newlines(2) + ReplaceAll(u, Newlines(3), Newlines(2))) == CollapseNewlines(Newlines(2) + u)
    ensures CollapseNewlines(Newlines(m) + ReplaceAll(t, Newlines(3), Newlines(2))) == CollapseNewlines(Newlines(m) + t)
  {
    var q, u := t[..i], t[i + 3..];
    var replaced := ReplaceAll(u, Newlines(3), Newlines(2));
    ReplaceAtFirst(t, i);
    if i == 0 {
      ReplaceAtStart(m, q, u, replaced);
    } else {
      ReplaceAfterText(m, q, u, replaced);
    }
  }

  /** How one pass splits at the first three newlines: the text before them,
      which does not end in a newline, then the rest. */
  lemma ReplaceAtFirst(t: string, i: nat)
    requires FindFirst(t, Newlines(3)) == Some(i)
    ensures ReplaceAll(t, Newlines(3), Newlines(2)) == t[..i] + Newlines(2) + ReplaceAll(t[i + 3..], Newlines(3), Newlines(2))
    ensures t == t[..i] + Newlines(3) + t[i + 3..]
    ensures i == 0 || t[i - 1] != '\n'
  {
    ReplaceStep(t, Newlines(3), Newlines(2));
    assert FindFirst(t, Newlines(3)).value == i;
    SplitAround(t, Newlines(3), i);
    FirstAfterText(t, i);
  }

  lemma SplitAround(t: string, p: string, i: nat)
    requires OccursAt(t, p, i)
    ensures t == t[..i] + p + t[i + |p|..]
  {
    assert t == t[..i] + t[i..i + |p|] + t[i + |p|..];
  }

  lemma FirstAfterText(t: string, i: nat)
    requires FindFirst(t, Newlines(3)) == Some(i)
    ensures i == 0 || t[i - 1] != '\n'
  {
    assert t[i..i + 3] == Newlines(3);
    if i > 0 && t[i - 1] == '\n' {
      assert t[i] == t[i..i + 3][0] && t[i + 1] == t[i..i + 3][1];
      ThreeNewlinesAt(t, i - 1);
    }
  }

  lemma ThreeNewlinesAt(t: string, j: nat)
    requires j + 3 <= |t| && t[j] == '\n' && t[j + 1] == '\n' && t[j + 2] == '\n'
    ensures OccursAt(t, Newlines(3), j)
  {
    assert forall k :: 0 <= k < 3 ==> t[j..j + 3][k] == Newlines(3)[k];
  }

  /** The step for a text that starts with the three newlines replaced. */
  lemma ReplaceAtStart(m: nat, q: string, u: string, replaced: string)
    requires q == []
    requires CollapseNewlines(Newlines(m + 2) + replaced) == CollapseNewlines(Newlines(m + 2) + u)
    ensures CollapseNewlines(Newlines(m) + (q + Newlines(2) + replaced)) == CollapseNewlines(Newlines(m) + (q + Newlines(3) + u))
  {
    assert q + Newlines(2) + replaced == Newlines(2) + replaced;
    assert q + Newlines(3) + u == Newlines(3) + u;
    NewlinesConcat(m, 2, replaced);
    NewlinesConcat(m, 3, u);
    RunCollapse(m + 2, u);
  }

  lemma NewlinesConcat(m: nat, k: nat, x: string)
    ensures Newlines(m) + (Newlines(k) + x) == Newlines(m + k) + x
  {
    assert Newlines(m) + Newlines(k) == Newlines(m + k);
  }

  /** The step for a text whose first three newlines follow other text. */
  lemma ReplaceAfterText(m: nat, q: string, u: string, replaced: string)
    requires q != [] && q[|q| - 1] != '\n'
    requires CollapseNewlines(Newlines(2) + replaced) == CollapseNewlines(Newlines(2) + u)
    ensures CollapseNewlines(Newlines(m) + (q + Newlines(2) + replaced)) == CollapseNewlines(Newlines(m) + (q + Newlines(3) + u))
  {
    var w := Newlines(m) + q;
    Regroup(Newlines(m), q, Newlines(2), replaced);
    Regroup(Newlines(m), q, Newlines(3), u);
    AfterText(w, u, replaced);
  }

  lemma Regroup(x: string, q: string, p: string, y: string)
    ensures x + (q + p + y) == (x + q) + (p + y)
  {
  }

  lemma AfterText(w: string, u: string, replaced: string)
    requires w != [] && w[|w| - 1] != '\n'
    requires CollapseNewlines(Newlines(2) + replaced) == CollapseNewlines(Newlines(2) + u)
    ensures CollapseNewlines(w + (Newlines(2) + replaced)) == CollapseNewlines(w + (Newlines(3) + u))
  {
    CollapseAppend(w, Newlines(2) + replaced);
    CollapseAppend(w, Newlines(3) + u);
    RunCollapse(2, u);
  }

  /** So a whole pass of the replacement keeps what the text collapses to. */
  lemma ReplacePassKeepsCollapse(s: string)
    ensures CollapseNewlines(ReplaceAll(s, "\n\n\n", "\n\n")) == CollapseNewlines(s)
  {
    ReplacePassAfterRun(0, s);
    assert Newlines(3) == "\n\n\n" && Newlines(2) == "\n\n";
    assert Newlines(0) + s == s;
    var r := ReplaceAll(s, Newlines(3), Newlines(2));
    assert Newlines(0) + r == r;
  }

  /** `while '\n\n\n' in lyrics: lyrics = lyrics.replace('\n\n\n', '\n\n')`:
      the loop ends, since each pass shortens the text, and it leaves the
      same text as the regex substitution. */
  method CollapseLoop(s: string) returns (lyrics: string)
    ensures lyrics == CollapseNewlines(s)
  {
    lyrics := s;
    while Contains(lyrics, "\n\n\n")
      invariant CollapseNewlines(lyrics) == CollapseNewlines(s)
      decreases |lyrics|
    {
      ReplaceShrinks(lyrics, "\n\n\n", "\n\n");
      ReplacePassKeepsCollapse(lyrics);
      lyrics := ReplaceAll(lyrics, "\n\n\n", "\n\n");
    }
    NoTripleContains(lyrics);
    CollapseKeeps(lyrics);
  }

  /** Part of a text with no three newlines in a row has none either. */
  lemma NoTripleInfix(s: string, r: string, i: int)
    requires NoTriple(s) && OccursAt(s, r, i)
    ensures NoTriple(r)
  {
    assert forall k :: 0 <= k < |r| && TripleAt(r, k) ==> TripleAt(s, i + k);
  }

  /** Collapsing then stripping: no surrounding whitespace and no three
      newlines in a row. */
  function CollapseAndStrip(s: string): (r: string)
    ensures Trimmed(r) && NoTriple(r)
  {
    var c := CollapseNewlines(s);
    CollapseShape(s);
    var r := Strip(c);
    var i :| StrippedAt(c, r, i);
    NoTripleInfix(c, r, i);
    r
  }

  // ------------------------------------------------------------------------
  // Genius

  /** `<[^>]+>` matches at the start of `s`, `n` characters long: a "<", one or
      more characters other than ">", then the first ">". */
  predicate TagAt(s: string, n: int) {
    3 <= n <= |s| && s[0] == '<' && s[n - 1] == '>' && forall k :: 1 <= k < n - 1 ==> s[k] != '>'
  }

  /** The index of the first ">" in `s` from `k` on. */
  function CloseFrom(s: string, k: nat): (r: Option<nat>)
    requires k <= |s|
    ensures r.Some? ==> k <= r.value < |s| && s[r.value] == '>'
    ensures forall j :: k <= j < |s| && (r.None? || j < r.value) ==> s[j] != '>'
    decreases |s| - k
  {
    if k == |s| then None else if s[k] == '>' then Some(k) else CloseFrom(s, k + 1)
  }

  /** The length of the tag at the start of `s`, 0 when none matches there. */
  function TagLength(s: string): (n: nat)
    ensures n <= |s|
    ensures n > 0 ==> TagAt(s, n)
    ensures n == 0 ==> forall m :: !TagAt(s, m)
  {
    if |s| < 2 || s[0] != '<' || s[1] == '>' then 0
    else match CloseFrom(s, 1)
      case None => 0
      case Some(j) => j + 1
  }

  /** `re.sub(r'<[^>]+>', '', s)`. */
  function RemoveTags(s: string): (r: string)
    ensures |r| <= |s|
    decreases |s|
  {
    if s == [] then []
    else
      var n := TagLength(s);
      if n > 0 then RemoveTags(s[n..]) else [s[0]] + RemoveTags(s[1..])
  }

  /** Text without "<" has no tag to remove. */
  lemma {:induction false} RemoveTagsKeepsPlain(s: string)
    requires forall i :: 0 <= i < |s| ==> s[i] != '<'
    ensures RemoveTags(s) == s
    decreases |s|
  {
    if s != [] {
      RemoveTagsKeepsPlain(s[1..]);
      assert s == [s[0]] + s[1..];
    }
  }

  /** Every character of the result comes from the input. */
  lemma {:induction false} RemoveTagsSubBag(s: string)
    ensures multiset(RemoveTags(s)) <= multiset(s)
    decreases |s|
  {
    if s != [] {
      var n := TagLength(s);
      assert s == s[..n] + s[n..];
      assert s == [s[0]] + s[1..];
      if n > 0 {
        RemoveTagsSubBag(s[n..]);
      } else {
        RemoveTagsSubBag(s[1..]);
      }
    }
  }

  /** The `<br>` variants Genius' containers use, turned into newlines. */
  function BreaksToNewlines(s: string): (r: string)
    ensures |r| <= |s|
    ensures !Contains(s, "<br>") && !Contains(s, "<br/>") && !Contains(s, "<BR>") ==> r == s
  {
    var a := ReplaceAll(s, "<br>", "\n");
    var b := ReplaceAll(a, "<br/>", "\n");
    ReplaceShrinks(s, "<br>", "\n");
    ReplaceShrinks(a, "<br/>", "\n");
    ReplaceShrinks(b, "<BR>", "\n");
    ReplaceWithout(s, "<br>", "\n");
    ReplaceWithout(a, "<br/>", "\n");
    ReplaceWithout(b, "<BR>", "\n");
    ReplaceAll(ReplaceAll(ReplaceAll(s, "<br>", "\n"), "<br/>", "\n"), "<BR>", "\n")
  }

  /** Genius: the contents of the lyrics containers of the song page (`None`
      when the search found no song page, or it could not be fetched), joined
      with newlines; breaks become newlines, the remaining tags go, entities
      are decoded, runs of newlines collapse and the text is stripped. No
      container means no lyrics. */
  function GeniusLyrics(containers: Option<seq<string>>, unescape: string -> string): (r: Option<string>)
    ensures r.Some? <==> containers.Some? && containers.value != []
    ensures r.Some? ==> Trimmed(r.value) && NoTriple(r.value)
  {
    if containers.None? || containers.value == [] then None
    else
      var combined := Join(containers.value, "\n");
      Some(CollapseAndStrip(unescape(RemoveTags(BreaksToNewlines(combined)))))
  }

  // ------------------------------------------------------------------------
  // MusixMatch

  /** The free MusixMatch body ends in a "..." notice followed by "Paroles ..."
      text: when both are present, keep the text before the first "...",
      stripped, with "..." after it. */
  function TruncateMusixmatch(lyrics: string): (r: string)
    ensures !(Contains(lyrics, "...") && Contains(lyrics, "Paroles")) ==> r == lyrics
    ensures Contains(lyrics, "...") && Contains(lyrics, "Paroles") ==>
      exists i :: FindFirst(lyrics, "...") == Some(i) && r == Strip(lyrics[..i]) + "..."
  {
    if Contains(lyrics, "...") && Contains(lyrics, "Paroles") then
      var i := FindFirst(lyrics, "...").value;
      SplitTail(lyrics, "...");
      Strip(Split(lyrics, "...")[0]) + "..."
    else lyrics
  }

  /** The truncated text ends in "..." and has no other "..." before that. */
  lemma TruncatedShape(lyrics: string)
    requires Contains(lyrics, "...") && Contains(lyrics, "Paroles")
    ensures var r := TruncateMusixmatch(lyrics);
      |r| >= 3 && r[|r| - 3..] == "..." && !Contains(r[..|r| - 3], "...")
  {
    var i := FindFirst(lyrics, "...").value;
    var r := TruncateMusixmatch(lyrics);
    var body := Strip(lyrics[..i]);
    assert r == body + "...";
    assert r[..|r| - 3] == body;
    NotInPrefix(lyrics, "...", i);
    ContainsThrough(lyrics[..i], body, "...");
  }

  /** What does not occur in a text does not occur in a part of it. */
  lemma ContainsThrough(s: string, r: string, p: string)
    requires Contains(s, r) && !Contains(s, p)
    ensures !Contains(r, p)
  {
    if Contains(r, p) {
      ContainsTransitive(s, r, p);
    }
  }

  /** MusixMatch's answer: the lyrics body (`None` when the reply has none). */
  function MusixmatchLyrics(body: Option<string>): (r: Option<string>)
    ensures r.Some? <==> body.Some?
    ensures r.Some? ==> r.value == TruncateMusixmatch(body.value)
  {
    if body.Some? then Some(TruncateMusixmatch(body.value)) else None
  }

  // ------------------------------------------------------------------------
  // The cleanup in _update_lyrics_ui

  /** The rewrites the cleanup applies that the model leaves opaque:
      `html.unescape`, the section-marker insertion, the sentence split used
      for text on fewer than three lines, the break before "[" words, and the
      aggressive split used for long text on fewer than five lines. */
  datatype Rewrites = Rewrites(
    unescape: string -> string,
    markers: string -> string,
    sentences: string -> string,
    brackets: string -> string,
    aggressive: string -> string)

  /** `len(s.split('\n'))`. */
  function LineCount(s: string): (n: nat)
    ensures n >= 1
  {
    |Split(s, "\n")|
  }

  /** The number of lines is one more than the number of newlines. */
  lemma {:induction false} LineCountNewlines(s: string)
    ensures LineCount(s) == multiset(s)['\n'] + 1
    decreases |s|
  {
    match FindFirst(s, "\n")
    case None =>
      NoNewlineCount(s);
    case Some(i) =>
      var rest := s[i + 1..];
      LineCountNewlines(rest);
      SplitAround(s, "\n", i);
      NotInPrefix(s, "\n", i);
      NoNewlineCount(s[..i]);
      LineCountStep(s, i);
      NewlineCountStep(s[..i], rest);
  }

  /** A text without a newline has none to count. */
  lemma NoNewlineCount(x: string)
    requires !Contains(x, "\n")
    ensures multiset(x)['\n'] == 0
  {
    if '\n' in multiset(x) {
      var j :| 0 <= j < |x| && x[j] == '\n';
      assert OccursAt(x, "\n", j);
    }
  }

  lemma LineCountStep(s: string, i: nat)
    requires FindFirst(s, "\n") == Some(i)
    ensures LineCount(s) == 1 + LineCount(s[i + 1..])
  {
  }

  lemma NewlineCountStep(q: string, rest: string)
    ensures multiset(q + "\n" + rest)['\n'] == multiset(q)['\n'] + 1 + multiset(rest)['\n']
  {
    assert multiset(q + "\n" + rest) == multiset(q) + multiset("\n") + multiset(rest);
  }

  /** The text before the newline collapse: entities decoded, the two break
      spellings made newlines, markers inserted, and the two gated splits. */
  function Prepared(lyrics: string, rw: Rewrites): string {
    var a := rw.unescape(lyrics);
    var b := ReplaceAll(ReplaceAll(a, "<br>", "\n"), "<br/>", "\n");
    var c := rw.markers(b);
    var d := if LineCount(c) < 3 then rw.sentences(c) else c;
    var e := rw.brackets(d);
    if LineCount(e) < 5 && |e| > 200 then rw.aggressive(e) else e
  }

  /** The text put in the lyrics box when nothing was found. */
  const Placeholder := "No lyrics found. You can add them manually."

  /** `_update_lyrics_ui`: the text shown and the status line. */
  method UpdateLyricsUi(lyrics: Option<string>, source: Option<Source>, rw: Rewrites)
    returns (text: string, status: string)
    requires Truthy(lyrics) ==> source.Some?
    ensures Truthy(lyrics) ==> text == CollapseAndStrip(Prepared(lyrics.value, rw))
    ensures Truthy(lyrics) ==> status == "Lyrics found from " + source.value.Label()
    ensures !Truthy(lyrics) ==> text == Placeholder && status == "No lyrics found"
  {
    if Truthy(lyrics) {
      var l := Prepared(lyrics.value, rw);
      l := CollapseLoop(l);
      text := Strip(l);
      status := "Lyrics found from " + source.value.Label();
    } else {
      text := Placeholder;
      status := "No lyrics found";
    }
  }

  /** The whole path from the three answers to the lyrics box: the first
      service with a text decides, and its label is the one reported. */
  method FetchAndShow(genius: Option<seq<string>>, musixmatch: Option<string>, ovh: Option<string>, rw: Rewrites)
    returns (text: string, status: string)
    ensures var (l, s) := FirstTruthy([GeniusLyrics(genius, rw.unescape), MusixmatchLyrics(musixmatch), ovh]);
      && (Truthy(l) ==> text == CollapseAndStrip(Prepared(l.value, rw)) && status == "Lyrics found from " + s.value.Label())
      && (!Truthy(l) ==> text == Placeholder && status == "No lyrics found")
  {
    var lyrics, source, _ := FetchLyricsThread(GeniusLyrics(genius, rw.unescape), MusixmatchLyrics(musixmatch), ovh);
    text, status := UpdateLyricsUi(lyrics, source, rw);
  }
}
