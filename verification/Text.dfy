/** The string functions of the Rust standard library that the loader, the host list and the database URL use. */
module Text {
  import opened Wrappers

  // `char::is_whitespace`: the White_Space property of Unicode.
  predicate IsWhitespace(c: char) {
    || '\t' <= c <= '\r' || c == ' ' || c == '\U{85}' || c == '\U{A0}' || c == '\U{1680}'
    || '\U{2000}' <= c <= '\U{200A}' || c == '\U{2028}' || c == '\U{2029}' || c == '\U{202F}' || c == '\U{205F}'
    || c == '\U{3000}'
  }

  /******* Searching *******/

  // `str::find` of a pattern and of a character, and `str::rfind` of a character.
  function Find(s: string, p: string): Option<nat> {
    if p <= s then Some(0)
    else if s == "" then None
    else match Find(s[1..], p) case None => None case Some(i) => Some(i + 1)
  }

  function FindChar(s: string, c: char): Option<nat> {
    if s == "" then None
    else if s[0] == c then Some(0)
    else match FindChar(s[1..], c) case None => None case Some(i) => Some(i + 1)
  }

  function RFindChar(s: string, c: char): Option<nat> {
    if s == "" then None
    else if s[|s| - 1] == c then Some(|s| - 1)
    else RFindChar(s[..|s| - 1], c)
  }

  lemma {:induction false} FindSound(s: string, p: string)
    ensures Find(s, p).Some? ==> Find(s, p).value + |p| <= |s| && p <= s[Find(s, p).value..]
  {
    if !(p <= s) && s != "" {
      FindSound(s[1..], p);
    }
  }

  // What is found depends only on the text up to the end of the match.
  lemma {:induction false} FindStable(s: string, t: string, p: string)
    requires Find(s, p).Some? && Find(s, p).value + |p| <= |s|
    requires s[..Find(s, p).value + |p|] <= t
    ensures Find(t, p) == Find(s, p)
  {
    var e := Find(s, p).value;
    FindSound(s, p);
    if p <= s {
      assert s[..|p|] == p;
    } else {
      assert Find(s[1..], p) == Some(e - 1);
      assert s[1..][..e - 1 + |p|] == s[..e + |p|][1..] == t[1..e + |p|];
      FindSound(s[1..], p);
      FindStable(s[1..], t[1..], p);
      assert t[..|p|] == s[..|p|];
    }
  }

  lemma {:induction false} FindCharIs(s: string, c: char)
    ensures FindChar(s, c) == None <==> c !in s
    ensures var r := FindChar(s, c); r.Some? ==> r.value < |s| && s[r.value] == c && c !in s[..r.value]
  {
    if s != "" && s[0] != c {
      FindCharIs(s[1..], c);
      var r := FindChar(s, c);
      if r.Some? {
        assert s[..r.value] == [s[0]] + s[1..][..r.value - 1];
      }
    }
  }

  lemma {:induction false} RFindCharIs(s: string, c: char)
    ensures RFindChar(s, c) == None <==> c !in s
    ensures var r := RFindChar(s, c); r.Some? ==> r.value < |s| && s[r.value] == c && c !in s[r.value + 1..]
  {
    if s != "" && s[|s| - 1] != c {
      RFindCharIs(s[..|s| - 1], c);
      var r := RFindChar(s, c);
      if r.Some? {
        assert s[r.value + 1..] == s[..|s| - 1][r.value + 1..] + [s[|s| - 1]];
      }
    }
  }

  // Cut before the first c, and around the last.
  function SplitFirst(s: string, c: char): (r: (string, string))
    ensures r.0 + r.1 == s && c !in r.0 && (r.1 == "" || r.1[0] == c)
  {
    FindCharIs(s, c);
    match FindChar(s, c)
    case Some(i) => (s[..i], s[i..])
    case None => (s, "")
  }

  function SplitLast(s: string, c: char): (r: Option<(string, string)>)
    ensures r == None ==> c !in s
    ensures r.Some? ==> s == r.value.0 + [c] + r.value.1 && c !in r.value.1
  {
    RFindCharIs(s, c);
    match RFindChar(s, c)
    case Some(i) => Some((s[..i], s[i + 1..]))
    case None => None
  }

  lemma {:induction false} FindCharAt(a: string, c: char, b: string)
    requires c !in a
    ensures FindChar(a + [c] + b, c) == Some(|a|)
  {
    if a != "" {
      assert (a + [c] + b)[1..] == a[1..] + [c] + b;
      FindCharAt(a[1..], c, b);
    }
  }

  lemma {:induction false} RFindCharAt(a: string, c: char, b: string)
    requires c !in b
    ensures RFindChar(a + [c] + b, c) == Some(|a|)
  {
    var s := a + [c] + b;
    if b == "" {
      assert s == a + [c];
    } else {
      var b' := b[..|b| - 1];
      assert s[..|s| - 1] == a + [c] + b';
      assert s[|s| - 1] == b[|b| - 1];
      RFindCharAt(a, c, b');
    }
  }

  lemma SplitFirstIs(a: string, b: string, c: char)
    requires c !in a && (b == "" || b[0] == c)
    ensures SplitFirst(a + b, c) == (a, b)
  {
    if b == "" {
      assert a + b == a;
      FindCharIs(a, c);
    } else {
      assert a + [c] + b[1..] == a + b;
      FindCharAt(a, c, b[1..]);
    }
  }

  lemma SplitLastIs(a: string, b: string, c: char)
    requires c !in b
    ensures SplitLast(a + [c] + b, c) == Some((a, b))
  {
    RFindCharAt(a, c, b);
    var s := a + [c] + b;
    assert s[..|a|] == a && s[|a| + 1..] == b;
  }

  /******* Words *******/

  // `str::split(char::is_whitespace)`: the pieces between white space, empty ones too.
  function Pieces(s: string): (r: seq<string>)
    ensures r != []
  {
    if s == "" then [""]
    else
      var rest := Pieces(s[1..]);
      if IsWhitespace(s[0]) then [""] + rest else [[s[0]] + rest[0]] + rest[1..]
  }

  function NonEmpty(pieces: seq<string>): seq<string> {
    if pieces == [] then []
    else if pieces[0] == "" then NonEmpty(pieces[1..])
    else [pieces[0]] + NonEmpty(pieces[1..])
  }

  // `str::split_whitespace`.
  function Words(s: string): seq<string> {
    NonEmpty(Pieces(s))
  }

  // `[String]::join(" ")`.
  function Join(words: seq<string>): string {
    if words == [] then ""
    else if |words| == 1 then words[0]
    else words[0] + " " + Join(words[1..])
  }

  ghost predicate IsWord(w: string) {
    w != "" && forall i :: 0 <= i < |w| ==> !IsWhitespace(w[i])
  }

  ghost predicate AllWords(words: seq<string>) {
    forall i :: 0 <= i < |words| ==> IsWord(words[i])
  }

  lemma {:induction false} PiecesHaveNoWhitespace(s: string)
    ensures forall i, j :: 0 <= i < |Pieces(s)| && 0 <= j < |Pieces(s)[i]| ==> !IsWhitespace(Pieces(s)[i][j])
  {
    if s != "" {
      PiecesHaveNoWhitespace(s[1..]);
    }
  }

  lemma {:induction false} NonEmptyKeeps(pieces: seq<string>)
    requires forall i, j :: 0 <= i < |pieces| && 0 <= j < |pieces[i]| ==> !IsWhitespace(pieces[i][j])
    ensures AllWords(NonEmpty(pieces))
  {
    if pieces != [] {
      NonEmptyKeeps(pieces[1..]);
    }
  }

  lemma WordsAreWords(s: string)
    ensures AllWords(Words(s))
  {
    PiecesHaveNoWhitespace(s);
    NonEmptyKeeps(Pieces(s));
  }

  lemma {:induction false} WordFirst(w: string, rest: string)
    requires forall i :: 0 <= i < |w| ==> !IsWhitespace(w[i])
    ensures Pieces(w + " " + rest) == [w] + Pieces(rest)
    ensures Pieces(w) == [w]
  {
    if w == "" {
      assert ("" + " " + rest)[1..] == rest;
    } else {
      assert (w + " " + rest)[1..] == w[1..] + " " + rest;
      WordFirst(w[1..], rest);
      assert [w[0]] + w[1..] == w;
    }
  }

  lemma {:induction false} JoinThenWords(words: seq<string>)
    requires AllWords(words)
    ensures Words(Join(words)) == words
  {
    if words == [] {
    } else if |words| == 1 {
      WordFirst(words[0], "");
      assert NonEmpty([words[0]]) == [words[0]] + NonEmpty([]);
    } else {
      assert AllWords(words[1..]);
      WordFirst(words[0], Join(words[1..]));
      JoinThenWords(words[1..]);
      var pieces := [words[0]] + Pieces(Join(words[1..]));
      assert pieces[1..] == Pieces(Join(words[1..]));
      assert IsWord(words[0]);
    }
  }

  // Joining words with spaces can be undone exactly when they are words: not empty and
  // without white space of their own.
  lemma JoinIsReversible(words: seq<string>)
    ensures Words(Join(words)) == words <==> AllWords(words)
  {
    WordsAreWords(Join(words));
    if AllWords(words) {
      JoinThenWords(words);
    }
  }

  /******* ASCII case *******/

  function ToAsciiUpper(c: char): char {
    if 'a' <= c <= 'z' then (c as int - 32) as char else c
  }

  function ToAsciiLower(c: char): char {
    if 'A' <= c <= 'Z' then (c as int + 32) as char else c
  }

  function AsciiUpper(s: string): string {
    seq(|s|, i requires 0 <= i < |s| => ToAsciiUpper(s[i]))
  }

  function AsciiLower(s: string): string {
    seq(|s|, i requires 0 <= i < |s| => ToAsciiLower(s[i]))
  }

  /******* Trimming *******/

  function TrimStart(s: string): string {
    if s != "" && IsWhitespace(s[0]) then TrimStart(s[1..]) else s
  }

  function TrimEnd(s: string): string {
    if s != "" && IsWhitespace(s[|s| - 1]) then TrimEnd(s[..|s| - 1]) else s
  }

  // `str::trim`.
  function Trim(s: string): string {
    TrimEnd(TrimStart(s))
  }

  // `trim_end_matches('.')`.
  function TrimDots(s: string): (r: string)
    ensures r == "" || r[|r| - 1] != '.'
  {
    if s != "" && s[|s| - 1] == '.' then TrimDots(s[..|s| - 1]) else s
  }
}
