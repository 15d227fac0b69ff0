/** The Python `str` operations the application relies on, as functions over
    `seq<char>`: `isspace`/`strip`, `in`/`find`, `split`/`join`, `replace`,
    `lower`, and `str(int)`. */
module Text {
  import opened Wrappers

  /** Python's `str.isspace()` for one character: the Unicode whitespace set
      (bidirectional classes WS, B and S, and the space separators). */
  predicate IsSpace(c: char) {
    ('\t' <= c <= '\r') || ('\U{1C}' <= c <= ' ') || c == '\U{85}' || c == '\U{A0}'
    || c == '\U{1680}' || ('\U{2000}' <= c <= '\U{200A}') || c == '\U{2028}'
    || c == '\U{2029}' || c == '\U{202F}' || c == '\U{205F}' || c == '\U{3000}'
  }

  predicate AllSpace(s: string) {
    forall i :: 0 <= i < |s| ==> IsSpace(s[i])
  }

  /** Python truthiness of an optional string: present and not empty. */
  predicate Truthy(s: Option<string>) {
    s.Some? && s.value != ""
  }

  /** No whitespace at either end: what `strip()` guarantees. */
  predicate Trimmed(s: string) {
    s == [] || (!IsSpace(s[0]) && !IsSpace(s[|s| - 1]))
  }

  // ---------------------------------------------------------------- search

  /** `p` occurs in `s` starting at index `i`. */
  predicate OccursAt(s: string, p: string, i: int) {
    0 <= i && i + |p| <= |s| && s[i..i + |p|] == p
  }

  /** Python's `p in s`. */
  predicate Contains(s: string, p: string) {
    exists i :: 0 <= i <= |s| - |p| && OccursAt(s, p, i)
  }

  /** Python's `s.find(p, start)`: the leftmost occurrence at or after `start`. */
  function FindFrom(s: string, p: string, start: nat): (r: Option<nat>)
    requires start <= |s|
    ensures r.Some? ==> start <= r.value && OccursAt(s, p, r.value)
    ensures forall i :: start <= i && (r.None? || i < r.value) ==> !OccursAt(s, p, i)
    decreases |s| - start
  {
    if OccursAt(s, p, start) then Some(start)
    else if start == |s| then None
    else FindFrom(s, p, start + 1)
  }

  /** Python's `s.find(p)`, with `None` for -1. */
  function FindFirst(s: string, p: string): (r: Option<nat>)
    ensures r.Some? <==> Contains(s, p)
    ensures r.Some? ==> OccursAt(s, p, r.value) && forall i :: i < r.value ==> !OccursAt(s, p, i)
  {
    var r := FindFrom(s, p, 0);
    assert r.None? ==> forall i :: !OccursAt(s, p, i) by {
      if r.None? {
        forall i ensures !OccursAt(s, p, i) {
          if 0 <= i { assert 0 <= i; }
        }
      }
    }
    r
  }

  /** A prefix that ends before the leftmost occurrence of `p` does not contain `p`. */
  lemma NotInPrefix(s: string, p: string, k: nat)
    requires |p| > 0 && k <= |s|
    requires forall i :: i < k ==> !OccursAt(s, p, i)
    ensures !Contains(s[..k], p)
  {
    forall i | OccursAt(s[..k], p, i) ensures false {
      assert s[..k][i..i + |p|] == s[i..i + |p|];
      assert OccursAt(s, p, i);
    }
  }

  /** An occurrence inside an infix is an occurrence in the whole string. */
  lemma ContainsTransitive(s: string, r: string, p: string)
    requires Contains(s, r) && Contains(r, p)
    ensures Contains(s, p)
  {
    var i :| 0 <= i <= |s| - |r| && OccursAt(s, r, i);
    var j :| 0 <= j <= |r| - |p| && OccursAt(r, p, j);
    assert forall k :: 0 <= k < |p| ==> p[k] == r[j + k] == s[i + j + k];
    assert p == s[i + j..i + j + |p|];
    assert OccursAt(s, p, i + j);
  }

  // ----------------------------------------------------------------- strip

  /** Python's `s.lstrip()`. */
  function TrimLeft(s: string): (r: string)
    ensures |r| <= |s| && r == s[|s| - |r|..]
    ensures AllSpace(s[..|s| - |r|])
    ensures r == [] || !IsSpace(r[0])
  {
    if |s| > 0 && IsSpace(s[0]) then
      var r := TrimLeft(s[1..]);
      DropFirstSpace(s, r);
      r
    else s
  }

  lemma DropFirstSpace(s: string, r: string)
    requires |s| > 0 && IsSpace(s[0])
    requires |r| <= |s| - 1 && r == s[1..][|s| - 1 - |r|..] && AllSpace(s[1..][..|s| - 1 - |r|])
    ensures r == s[|s| - |r|..] && AllSpace(s[..|s| - |r|])
  {
    var k := |s| - |r|;
    assert s[1..][k - 1..] == s[k..];
    assert forall i :: 1 <= i < k ==> s[..k][i] == s[1..][..k - 1][i - 1];
  }

  /** Python's `s.rstrip()`. */
  function TrimRight(s: string): (r: string)
    ensures |r| <= |s| && r == s[..|r|]
    ensures AllSpace(s[|r|..])
    ensures r == [] || !IsSpace(r[|r| - 1])
  {
    if |s| > 0 && IsSpace(s[|s| - 1]) then
      var r := TrimRight(s[..|s| - 1]);
      DropLastSpace(s, r);
      r
    else s
  }

  lemma DropLastSpace(s: string, r: string)
    requires |s| > 0 && IsSpace(s[|s| - 1])
    requires |r| <= |s| - 1 && r == s[..|s| - 1][..|r|] && AllSpace(s[..|s| - 1][|r|..])
    ensures r == s[..|r|] && AllSpace(s[|r|..])
  {
    var t := s[..|s| - 1];
    assert t[..|r|] == s[..|r|];
    assert forall i :: 0 <= i < |s| - 1 - |r| ==> s[|r|..][i] == t[|r|..][i];
  }

  /** `r` sits at `i` in `s` with only whitespace around it. */
  predicate StrippedAt(s: string, r: string, i: int) {
    OccursAt(s, r, i) && AllSpace(s[..i]) && AllSpace(s[i + |r|..])
  }

  /** Python's `s.strip()`: the result is an infix of `s` with no whitespace at
      either end, and only whitespace was cut away. */
  function Strip(s: string): (r: string)
    ensures Trimmed(r)
    ensures Contains(s, r)
    ensures exists i :: StrippedAt(s, r, i)
  {
    var l := TrimLeft(s);
    var r := TrimRight(l);
    StripInfix(s, l, r);
    StripEnds(l, r);
    assert StrippedAt(s, r, |s| - |l|);
    r
  }

  /** The text kept by `rstrip` after `lstrip` sits after the cut-away left
      part, with only whitespace after it. */
  lemma StripInfix(s: string, l: string, r: string)
    requires |r| <= |l| <= |s| && l == s[|s| - |l|..] && r == l[..|r|]
    requires AllSpace(s[..|s| - |l|]) && AllSpace(l[|r|..])
    ensures StrippedAt(s, r, |s| - |l|)
  {
    var i := |s| - |l|;
    assert s[i..i + |r|] == r;
    assert s[i + |r|..] == l[|r|..];
  }

  /** A prefix of a text that starts with no whitespace, itself ending in no
      whitespace, is trimmed. */
  lemma StripEnds(l: string, r: string)
    requires |r| <= |l| && r == l[..|r|]
    requires (l == [] || !IsSpace(l[0])) && (r == [] || !IsSpace(r[|r| - 1]))
    ensures Trimmed(r)
  {
    assert r == [] || r[0] == l[0];
  }

  /** `strip()` leaves an already trimmed string alone, so it is idempotent. */
  lemma StripTrimmed(s: string)
    requires Trimmed(s)
    ensures Strip(s) == s
  {
  }

  lemma StripIdempotent(s: string)
    ensures Strip(Strip(s)) == Strip(s)
  {
    StripTrimmed(Strip(s));
  }

  lemma {:induction false} TrimLeftPadded(w: string, x: string)
    requires AllSpace(w) && (x == [] || !IsSpace(x[0]))
    ensures TrimLeft(w + x) == x
    decreases |w|
  {
    if |w| > 0 {
      assert (w + x)[1..] == w[1..] + x;
      TrimLeftPadded(w[1..], x);
    } else {
      assert w + x == x;
    }
  }

  lemma {:induction false} TrimRightPadded(x: string, w: string)
    requires AllSpace(w) && (x == [] || !IsSpace(x[|x| - 1]))
    ensures TrimRight(x + w) == x
    decreases |w|
  {
    if |w| > 0 {
      assert (x + w)[..|x + w| - 1] == x + w[..|w| - 1];
      TrimRightPadded(x, w[..|w| - 1]);
    } else {
      assert x + w == x;
    }
  }

  /** `strip()` removes exactly the whitespace around a trimmed core. */
  lemma StripPadded(w1: string, t: string, w2: string)
    requires AllSpace(w1) && AllSpace(w2) && Trimmed(t)
    ensures Strip(w1 + t + w2) == t
  {
    if t == [] {
      var s := w1 + t + w2;
      assert AllSpace(s) by { assert forall i :: 0 <= i < |s| ==> s[i] == if i < |w1| then w1[i] else w2[i - |w1|]; }
    } else {
      assert w1 + t + w2 == w1 + (t + w2);
      TrimLeftPadded(w1, t + w2);
      TrimRightPadded(t, w2);
    }
  }

  // ----------------------------------------------------------- split, join

  /** Python's `sep.join(parts)`. */
  function Join(parts: seq<string>, sep: string): string {
    if |parts| == 0 then ""
    else if |parts| == 1 then parts[0]
    else parts[0] + sep + Join(parts[1..], sep)
  }

  /** Python's `s.split(sep)` for a non-empty separator: the pieces between the
      leftmost non-overlapping occurrences; none of them holds the separator. */
  function Split(s: string, sep: string): (parts: seq<string>)
    requires |sep| > 0
    ensures |parts| >= 1
    ensures forall k :: 0 <= k < |parts| ==> !Contains(parts[k], sep)
    ensures |parts| > 1 <==> Contains(s, sep)
    decreases |s|
  {
    match FindFirst(s, sep)
    case None => [s]
    case Some(i) =>
      NotInPrefix(s, sep, i);
      [s[..i]] + Split(s[i + |sep|..], sep)
  }

  /** Splitting at the first separator: the text before it, then the split
      of the rest. */
  lemma SplitStep(s: string, sep: string)
    requires |sep| > 0 && FindFirst(s, sep).Some?
    ensures var i := FindFirst(s, sep).value;
      i + |sep| <= |s| && Split(s, sep) == [s[..i]] + Split(s[i + |sep|..], sep)
  {
  }

  /** Joining a first piece onto a non-empty list of pieces. */
  lemma JoinCons(a: string, parts: seq<string>, sep: string)
    requires |parts| >= 1
    ensures Join([a] + parts, sep) == a + sep + Join(parts, sep)
  {
    assert ([a] + parts)[1..] == parts;
  }

  /** The text is the part before the separator at `i`, the separator, and the
      rest. */
  lemma AroundFirst(s: string, sep: string, i: nat)
    requires |sep| > 0 && FindFirst(s, sep) == Some(i)
    ensures s == s[..i] + sep + s[i + |sep|..]
  {
    assert s == s[..i] + s[i..i + |sep|] + s[i + |sep|..];
  }

  /** Joining the pieces of a split with the same separator gives the string back. */
  lemma {:induction false} JoinSplit(s: string, sep: string)
    requires |sep| > 0
    ensures Join(Split(s, sep), sep) == s
    decreases |s|
  {
    match FindFirst(s, sep)
    case None =>
    case Some(i) =>
      JoinSplit(s[i + |sep|..], sep);
      JoinSplitStep(s, sep, i);
  }

  lemma JoinSplitStep(s: string, sep: string, i: nat)
    requires |sep| > 0 && FindFirst(s, sep) == Some(i)
    requires Join(Split(s[i + |sep|..], sep), sep) == s[i + |sep|..]
    ensures Join(Split(s, sep), sep) == s
  {
    var rest := s[i + |sep|..];
    SplitStep(s, sep);
    assert FindFirst(s, sep).value == i;
    assert Split(s, sep) == [s[..i]] + Split(rest, sep);
    JoinCons(s[..i], Split(rest, sep), sep);
    AroundFirst(s, sep, i);
  }

  /** `Join(parts[1..])` of a split is exactly the text after the first separator. */
  lemma SplitTail(s: string, sep: string)
    requires |sep| > 0 && FindFirst(s, sep).Some?
    ensures var i := FindFirst(s, sep).value;
      i + |sep| <= |s| && Split(s, sep)[0] == s[..i]
      && Join(Split(s, sep)[1..], sep) == s[i + |sep|..]
  {
    var i := FindFirst(s, sep).value;
    var rest := s[i + |sep|..];
    SplitStep(s, sep);
    ConsParts(Split(s, sep), s[..i], Split(rest, sep));
    JoinSplit(rest, sep);
  }

  /** Concatenation is associative. */
  lemma AppendAssoc<T>(x: seq<T>, y: seq<T>, z: seq<T>)
    ensures x + (y + z) == (x + y) + z
  {
  }

  lemma ConsParts(parts: seq<string>, a: string, tail: seq<string>)
    requires parts == [a] + tail
    ensures parts[0] == a && parts[1..] == tail
  {
    assert parts[1..] == tail;
  }

  // --------------------------------------------------------------- replace

  /** Python's `s.replace(pat, rep)`: every leftmost non-overlapping occurrence
      of `pat` is replaced, scanning left to right. */
  function ReplaceAll(s: string, pat: string, rep: string): (r: string)
    requires |pat| > 0
    decreases |s|
  {
    match FindFirst(s, pat)
    case None => s
    case Some(i) => s[..i] + rep + ReplaceAll(s[i + |pat|..], pat, rep)
  }

  /** A text in which the pattern does not occur is left unchanged. */
  lemma ReplaceWithout(s: string, pat: string, rep: string)
    requires |pat| > 0
    ensures !Contains(s, pat) ==> ReplaceAll(s, pat, rep) == s
  {
  }

  /** Replacing at the first occurrence, then in the rest. */
  lemma ReplaceStep(s: string, pat: string, rep: string)
    requires |pat| > 0 && FindFirst(s, pat).Some?
    ensures var i := FindFirst(s, pat).value;
      i + |pat| <= |s| && ReplaceAll(s, pat, rep) == s[..i] + rep + ReplaceAll(s[i + |pat|..], pat, rep)
  {
  }

  /** `s.replace(a, b) == b.join(s.split(a))`. */
  lemma {:induction false} ReplaceIsSplitJoin(s: string, pat: string, rep: string)
    requires |pat| > 0
    ensures ReplaceAll(s, pat, rep) == Join(Split(s, pat), rep)
    decreases |s|
  {
    match FindFirst(s, pat)
    case None =>
    case Some(i) =>
      ReplaceIsSplitJoin(s[i + |pat|..], pat, rep);
      ReplaceSplitJoinStep(s, pat, rep, i);
  }

  lemma ReplaceSplitJoinStep(s: string, pat: string, rep: string, i: nat)
    requires |pat| > 0 && FindFirst(s, pat) == Some(i)
    requires ReplaceAll(s[i + |pat|..], pat, rep) == Join(Split(s[i + |pat|..], pat), rep)
    ensures ReplaceAll(s, pat, rep) == Join(Split(s, pat), rep)
  {
    var rest := s[i + |pat|..];
    ReplaceStep(s, pat, rep);
    SplitStep(s, pat);
    assert FindFirst(s, pat).value == i;
    assert ReplaceAll(s, pat, rep) == s[..i] + rep + ReplaceAll(rest, pat, rep);
    assert Split(s, pat) == [s[..i]] + Split(rest, pat);
    JoinCons(s[..i], Split(rest, pat), rep);
  }

  /** The total length of the pieces. */
  function PieceLengths(parts: seq<string>): nat {
    if parts == [] then 0 else |parts[0]| + PieceLengths(parts[1..])
  }

  /** Joining adds one separator between each two pieces. */
  lemma {:induction false} JoinLength(parts: seq<string>, sep: string)
    requires |parts| >= 1
    ensures |Join(parts, sep)| == PieceLengths(parts) + (|parts| - 1) * |sep|
    decreases |parts|
  {
    if |parts| > 1 {
      JoinLength(parts[1..], sep);
      MulStep(|parts| - 1, |sep|);
    }
  }

  lemma MulStep(n: int, k: int)
    ensures n * k == k + (n - 1) * k
  {
  }

  /** Each replaced occurrence changes the length by the difference between
      the replacement and the pattern. */
  lemma ReplaceLength(s: string, pat: string, rep: string)
    requires |pat| > 0
    ensures var n := |Split(s, pat)|;
      |ReplaceAll(s, pat, rep)| == |s| + (n - 1) * (|rep| - |pat|)
  {
    var parts := Split(s, pat);
    ReplaceIsSplitJoin(s, pat, rep);
    JoinSplit(s, pat);
    JoinLength(parts, rep);
    JoinLength(parts, pat);
    MulSub(|parts| - 1, |rep|, |pat|);
  }

  lemma MulSub(n: int, a: int, b: int)
    ensures n * a == n * b + n * (a - b)
  {
  }

  /** Replacing with a string of the same length keeps the length. */
  lemma ReplaceKeepsLength(s: string, pat: string, rep: string)
    requires |pat| > 0 && |rep| == |pat|
    ensures |ReplaceAll(s, pat, rep)| == |s|
  {
    ReplaceLength(s, pat, rep);
  }

  /** Replacing with a shorter string shrinks any string that holds the pattern. */
  lemma ReplaceShrinks(s: string, pat: string, rep: string)
    requires |pat| > |rep|
    ensures |ReplaceAll(s, pat, rep)| <= |s|
    ensures Contains(s, pat) ==> |ReplaceAll(s, pat, rep)| < |s|
  {
    ReplaceLength(s, pat, rep);
    MulNegative(|Split(s, pat)| - 1, |rep| - |pat|);
  }

  lemma MulNegative(n: int, d: int)
    requires n >= 0 && d < 0
    ensures n * d <= 0 && (n > 0 ==> n * d < 0)
  {
  }

  /** The character-for-character reading of `s.replace(c, d)`. */
  function MapChar(s: string, c: char, d: char): (r: string)
    ensures |r| == |s|
    ensures forall i :: 0 <= i < |s| ==> r[i] == if s[i] == c then d else s[i]
  {
    seq(|s|, i requires 0 <= i < |s| => if s[i] == c then d else s[i])
  }

  /** Replacing a one-character pattern by one character rewrites exactly the
      positions that hold it and keeps every other character. */
  lemma {:induction false} ReplaceSingleChar(s: string, c: char, d: char)
    ensures ReplaceAll(s, [c], [d]) == MapChar(s, c, d)
    decreases |s|
  {
    match FindFirst(s, [c])
    case None =>
      NoCharBefore(s, c, |s|);
      MapCharKeeps(s, c, d);
    case Some(i) =>
      ReplaceSingleChar(s[i + 1..], c, d);
      NoCharBefore(s, c, i);
      assert s[i] == c by { assert s[i..i + 1] == [c]; }
      MapCharStep(s, c, d, i);
      ReplaceStep(s, [c], [d]);
  }

  /** Where a one-character pattern does not occur, the character does not. */
  lemma NoCharBefore(s: string, c: char, k: nat)
    requires k <= |s| && forall j :: j < k ==> !OccursAt(s, [c], j)
    ensures forall j :: 0 <= j < k ==> s[j] != c
  {
    forall j | 0 <= j < k ensures s[j] != c {
      assert !OccursAt(s, [c], j);
      assert s[j..j + 1] == [s[j]];
    }
  }

  /** Mapping a character that does not occur changes nothing. */
  lemma MapCharKeeps(s: string, c: char, d: char)
    requires forall j :: 0 <= j < |s| ==> s[j] != c
    ensures MapChar(s, c, d) == s
  {
  }

  /** Mapping splits at the first occurrence of the character. */
  lemma MapCharStep(s: string, c: char, d: char, i: nat)
    requires i < |s| && s[i] == c && forall j :: 0 <= j < i ==> s[j] != c
    ensures MapChar(s, c, d) == s[..i] + [d] + MapChar(s[i + 1..], c, d)
  {
    var m, t := MapChar(s, c, d), s[..i] + [d] + MapChar(s[i + 1..], c, d);
    forall k | 0 <= k < |s| ensures m[k] == t[k] {
      if k > i { assert t[k] == MapChar(s[i + 1..], c, d)[k - i - 1]; }
    }
  }

  // ----------------------------------------------------------------- lower

  /** Python's `str.lower()` restricted to the characters whose lower-case form
      is a single ASCII letter: A-Z and the Kelvin sign. */
  function LowerChar(c: char): char {
    if 'A' <= c <= 'Z' then (c as int + 32) as char
    else if c == '\U{212A}' then 'k'
    else c
  }

  function Lower(s: string): (r: string)
    ensures |r| == |s| && forall i :: 0 <= i < |s| ==> r[i] == LowerChar(s[i])
  {
    seq(|s|, i requires 0 <= i < |s| => LowerChar(s[i]))
  }

  // ------------------------------------------------------ integer and text

  predicate IsDigit(c: char) { '0' <= c <= '9' }

  predicate AllDigits(s: string) {
    forall i :: 0 <= i < |s| ==> IsDigit(s[i])
  }

  function DigitChar(d: nat): (c: char)
    requires d < 10
    ensures IsDigit(c)
  {
    ('0' as int + d) as char
  }

  function DigitValue(c: char): (d: nat)
    requires IsDigit(c)
    ensures d < 10
  {
    c as int - '0' as int
  }

  /** Python's `str(n)` for a non-negative integer: decimal digits, no leading zero. */
  function NatToString(n: nat): (s: string)
    ensures |s| >= 1 && AllDigits(s)
    ensures |s| > 1 ==> s[0] != '0'
  {
    if n < 10 then [DigitChar(n)] else NatToString(n / 10) + [DigitChar(n % 10)]
  }

  /** Python's `int(s)` for a string of decimal digits. */
  function ParseNat(s: string): nat
    requires AllDigits(s)
  {
    if s == [] then 0 else 10 * ParseNat(s[..|s| - 1]) + DigitValue(s[|s| - 1])
  }

  /** `int(str(n)) == n`. */
  lemma {:induction false} ParseNatToString(n: nat)
    ensures ParseNat(NatToString(n)) == n
  {
    var s := NatToString(n);
    if n >= 10 {
      ParseNatToString(n / 10);
      assert s[..|s| - 1] == NatToString(n / 10);
    }
  }
}
