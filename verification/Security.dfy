/**
 The text transforms of src/security.rs: control escapes, the capped log form, and the
 head-and-tail cut of stored bodies.
 */
module Security {
  import opened Controls
  import opened Utf8

  const LOG_CAP := 4096
  const LONGEST_ESCAPE := 6
  const LOG_MARKER := "\U{2026}[truncated]"

  const HEX := "0123456789abcdef"

  // `format!("\\u{:04x}", c as u32)` for a c below 256.
  function UnicodeEscape(c: char): (r: string)
    requires c < 256 as char
    ensures |r| == 6 && forall x :: x in r ==> ' ' <= x < 0x7f as char
    ensures ByteLen(r) == 6
  {
    var r := ['\\', 'u', '0', '0', HEX[c as int / 16], HEX[c as int % 16]];
    AsciiLen(r);
    r
  }

  lemma {:induction false} AsciiLen(s: string)
    requires forall x :: x in s ==> x < 0x80 as char
    ensures ByteLen(s) == |s|
  {
    if s != "" {
      assert forall i :: 0 <= i < |s| ==> s[i] in s;
      assert forall x :: x in s[1..] ==> x in s;
      AsciiLen(s[1..]);
    }
  }

  function Escape(c: char): string {
    if c == '\r' then "\\r"
    else if c == '\n' then "\\n"
    else if c == '\t' then "\t"
    else if IsC0OrDel(c) then UnicodeEscape(c)
    else [c]
  }

  function Sanitized(s: string): string {
    if s == "" then "" else Escape(s[0]) + Sanitized(s[1..])
  }

  /******* Escaping *******/

  lemma EscapeLen(c: char)
    ensures 1 <= ByteLen(Escape(c)) <= LONGEST_ESCAPE
    ensures ByteLen(Escape(c)) == if c == '\r' || c == '\n' then 2 else if c == '\t' then 1
                                 else if IsC0OrDel(c) then 6 else |Octets(c)|
  {
    AsciiLen("\\r");
    AsciiLen("\\n");
    AsciiLen("\t");
    EncodeOne(c);
  }

  lemma {:induction false} SanitizedConcat(a: string, b: string)
    ensures Sanitized(a + b) == Sanitized(a) + Sanitized(b)
  {
    if a == "" {
      assert a + b == b;
    } else {
      assert (a + b)[1..] == a[1..] + b;
      SanitizedConcat(a[1..], b);
    }
  }

  lemma SanitizedMore(s: string, k: nat)
    requires k < |s|
    ensures Sanitized(s[..k + 1]) == Sanitized(s[..k]) + Escape(s[k])
    ensures ByteLen(Sanitized(s[..k + 1])) == ByteLen(Sanitized(s[..k])) + ByteLen(Escape(s[k]))
  {
    assert s[..k + 1] == s[..k] + [s[k]];
    SanitizedConcat(s[..k], [s[k]]);
    assert [s[k]][1..] == "";
    assert Sanitized([s[k]]) == Escape(s[k]);
    EncodeConcat(Sanitized(s[..k]), Escape(s[k]));
  }

  lemma VisibleIsPlain(s: string)
    requires forall x :: x in s ==> ' ' <= x < 0x7f as char
    ensures OnlyC1(s) && C1s(s) == ""
  {
    assert forall i :: 0 <= i < |s| ==> s[i] in s;
    NoC1s(s);
  }

  lemma OneChar(c: char)
    requires c == '\t' || !IsC0OrDel(c)
    ensures OnlyC1([c]) && C1s([c]) == if IsC1(c) then [c] else ""
  {
    assert [c][1..] == "";
  }

  lemma EscapeIsClean(c: char)
    ensures OnlyC1(Escape(c)) && C1s(Escape(c)) == if IsC1(c) then [c] else ""
  {
    if c == '\t' || !IsC0OrDel(c) {
      OneChar(c);
    } else {
      VisibleIsPlain(Escape(c));
    }
  }

  // No C0 character but tab and no DEL comes out; C1 characters go through, all of them and in
  // order.
  lemma {:induction false} SanitizedIsClean(s: string)
    ensures OnlyC1(Sanitized(s)) && C1s(Sanitized(s)) == C1s(s)
  {
    if s != "" {
      EscapeIsClean(s[0]);
      SanitizedIsClean(s[1..]);
      C1sConcat(Escape(s[0]), Sanitized(s[1..]));
    }
  }

  // So the output has no control character but tab exactly when the input has no C1.
  lemma SanitizedIsPlain(s: string)
    ensures IsPlain(Sanitized(s)) <==> forall i :: 0 <= i < |s| ==> !IsC1(s[i])
  {
    SanitizedIsClean(s);
    PlainIs(Sanitized(s));
    NoC1s(s);
  }

  // U+009B, the ANSI control sequence introducer in one character, is left as it is.
  lemma CsiGetsThrough()
    ensures Sanitized("\U{9B}31m") == "\U{9B}31m" && !IsPlain(Sanitized("\U{9B}31m"))
  {
    var s := "\U{9B}31m";
    assert OnlyC1(s);
    SanitizedFixes(s);
    assert IsC1(s[0]);
    SanitizedIsPlain(s);
  }

  // Text without C0 characters but tab and without DEL goes through as it is, and no other
  // text does.
  lemma {:induction false} SanitizedFixes(s: string)
    ensures Sanitized(s) == s <==> OnlyC1(s)
  {
    if s == "" {
    } else if s[0] == '\t' || !IsC0OrDel(s[0]) {
      SanitizedFixes(s[1..]);
      assert Escape(s[0]) == [s[0]] && s == [s[0]] + s[1..];
      assert Sanitized(s)[1..] == Sanitized(s[1..]);
      assert OnlyC1(s) <==> OnlyC1(s[1..]) by {
        assert forall i :: 0 < i < |s| ==> s[i] == s[1..][i - 1];
      }
    } else {
      SanitizedIsClean(s);
    }
  }

  lemma SanitizedIsIdempotent(s: string)
    ensures Sanitized(Sanitized(s)) == Sanitized(s)
  {
    SanitizedIsClean(s);
    SanitizedFixes(Sanitized(s));
  }

  method SanitizeForPersistence(s: string) returns (out: string)
    ensures out == Sanitized(s)
  {
    out := "";
    for i := 0 to |s|
      invariant out == Sanitized(s[..i])
    {
      SanitizedMore(s, i);
      out := out + Escape(s[i]);
    }
    assert s[..|s|] == s;
  }

  /******* The capped log form *******/

  // The first k characters leave room for one more escape.
  predicate LeavesRoom(s: string, k: nat)
    requires k <= |s|
  {
    ByteLen(Sanitized(s[..k])) + LONGEST_ESCAPE <= LOG_CAP
  }

  // The cut falls before character k.
  ghost predicate CutBefore(s: string, k: int) {
    0 <= k < |s| && !LeavesRoom(s, k) && forall j :: 0 <= j < k ==> LeavesRoom(s, j)
  }

  lemma SanitizedGrows(s: string, j: nat, k: nat)
    requires j <= k <= |s|
    ensures ByteLen(Sanitized(s[..j])) <= ByteLen(Sanitized(s[..k]))
  {
    assert s[..k] == s[..j] + s[j..k];
    SanitizedConcat(s[..j], s[j..k]);
    EncodeConcat(Sanitized(s[..j]), Sanitized(s[j..k]));
  }

  // The log form is the full form, or ends it between two whole escapes with the marker.
  // It is cut exactly when all but the last character already leave no room.
  method SanitizeForLog(s: string) returns (out: string)
    ensures s == "" || LeavesRoom(s, |s| - 1) ==> out == Sanitized(s)
    ensures s != "" && !LeavesRoom(s, |s| - 1) ==>
      exists k :: CutBefore(s, k) && out == Sanitized(s[..k]) + LOG_MARKER && ByteLen(Sanitized(s[..k])) <= LOG_CAP
    ensures ByteLen(Sanitized(s)) <= LOG_CAP - LONGEST_ESCAPE ==> out == Sanitized(s)
  {
    out := "";
    var written := 0;
    var i := 0;
    while i < |s|
      invariant 0 <= i <= |s|
      invariant out == Sanitized(s[..i])
      invariant written == ByteLen(out) <= LOG_CAP
      invariant forall j :: 0 <= j < i ==> LeavesRoom(s, j)
    {
      if written + LONGEST_ESCAPE > LOG_CAP {
        SanitizedGrows(s, i, |s| - 1);
        SanitizedGrows(s, i, |s|);
        assert s[..|s|] == s;
        assert CutBefore(s, i);
        out := out + LOG_MARKER;
        return;
      }
      var c := s[i];
      SanitizedMore(s, i);
      EscapeLen(c);
      if c == '\r' {
        out := out + "\\r";
        written := written + 2;
      } else if c == '\n' {
        out := out + "\\n";
        written := written + 2;
      } else if c == '\t' {
        out := out + "\t";
        written := written + 1;
      } else if IsC0OrDel(c) {
        out := out + UnicodeEscape(c);
        written := written + 6;
      } else {
        out := out + [c];
        written := written + |Octets(c)|;
      }
      i := i + 1;
    }
    assert s[..|s|] == s;
  }

  /******* Cutting stored bodies *******/

  // The log form of the first k characters: with the marker, or without.
  ghost predicate IsFormOf(s: string, out: string, k: int) {
    0 <= k <= |s| && (out == Sanitized(s[..k]) || out == Sanitized(s[..k]) + LOG_MARKER)
  }

  lemma MarkerIsPlain()
    ensures IsPlain(LOG_MARKER)
  {
  }

  // What `SanitizeForLog` promises, as the number of characters it shows: all, or those before
  // the cut.
  lemma LogTextShows(s: string, out: string) returns (k: int)
    requires out == Sanitized(s) || exists c :: CutBefore(s, c) && out == Sanitized(s[..c]) + LOG_MARKER
    ensures IsFormOf(s, out, k) && (k == |s| || CutBefore(s, k))
  {
    if out == Sanitized(s) {
      k := |s|;
      assert s[..|s|] == s;
    } else {
      k :| CutBefore(s, k) && out == Sanitized(s[..k]) + LOG_MARKER;
    }
  }

  // The log form holds the C1 characters of what it shows, and no other control character but
  // tab, cut or not; so it has none at all exactly when what it shows has no C1.
  lemma LogTextIsClean(shown: string, out: string)
    requires out == Sanitized(shown) || out == Sanitized(shown) + LOG_MARKER
    ensures OnlyC1(out) && C1s(out) == C1s(shown)
    ensures IsPlain(out) <==> forall i :: 0 <= i < |shown| ==> !IsC1(shown[i])
  {
    MarkerIsPlain();
    ShownIsClean(shown, LOG_MARKER, out);
    NoC1s(shown);
  }

  lemma ShownIsClean(s: string, marker: string, out: string)
    requires IsPlain(marker) && (out == Sanitized(s) || out == Sanitized(s) + marker)
    ensures OnlyC1(out) && C1s(out) == C1s(s)
    ensures IsPlain(out) <==> C1s(s) == ""
  {
    SanitizedIsClean(s);
    WithOrWithout(Sanitized(s), marker, out);
  }

  lemma WithOrWithout(clean: string, marker: string, out: string)
    requires OnlyC1(clean) && IsPlain(marker) && (out == clean || out == clean + marker)
    ensures OnlyC1(out) && C1s(out) == C1s(clean)
    ensures IsPlain(out) <==> C1s(clean) == ""
  {
    PlainAfter(clean, marker);
    PlainIs(out);
  }

  // The greatest boundary not above idx; at most three steps down.
  method CharBoundaryFloor(s: string, idx: nat) returns (r: nat)
    ensures r <= ByteLen(s) && IsCharBoundary(Encode(s), r)
    ensures idx >= ByteLen(s) ==> r == ByteLen(s)
    ensures idx < ByteLen(s) ==> r <= idx <= r + 3
    ensures forall b :: r < b <= idx ==> !IsCharBoundary(Encode(s), b)
  {
    var bytes := Encode(s);
    if idx >= |bytes| {
      return |bytes|;
    }
    ghost var near := BoundaryNear(s, idx);
    r := idx;
    while !IsCharBoundary(bytes, r)
      invariant near <= r <= idx
      invariant forall b :: r < b <= idx ==> !IsCharBoundary(bytes, b)
      decreases r
    {
      r := r - 1;
    }
  }

  // At most three steps up there is a boundary.
  lemma BoundaryAbove(s: string, idx: nat) returns (next: nat)
    requires idx < ByteLen(s)
    ensures idx <= next <= idx + 3 && next <= ByteLen(s) && IsCharBoundary(Encode(s), next)
  {
    next := BoundaryNear(s, idx);
    if next < idx {
      var e :| idx < e <= next + 4 && e <= ByteLen(s) && IsCharBoundary(Encode(s), e);
      next := e;
    }
  }

  // The least boundary not below idx; at most three steps up.
  method CharBoundaryCeil(s: string, idx: nat) returns (r: nat)
    ensures r <= ByteLen(s) && IsCharBoundary(Encode(s), r)
    ensures idx >= ByteLen(s) ==> r == ByteLen(s)
    ensures idx < ByteLen(s) ==> idx <= r <= idx + 3
    ensures forall b :: idx <= b < r ==> !IsCharBoundary(Encode(s), b)
  {
    var bytes := Encode(s);
    if idx >= |bytes| {
      return |bytes|;
    }
    ghost var next := BoundaryAbove(s, idx);
    r := idx;
    while !IsCharBoundary(bytes, r)
      invariant idx <= r <= next
      invariant forall b :: idx <= b < r ==> !IsCharBoundary(bytes, b)
      decreases next - r
    {
      r := r + 1;
    }
  }

  function Decimal(n: nat): string {
    var digit := ['0' + (n % 10) as char];
    if n < 10 then digit else Decimal(n / 10) + digit
  }

  function Marker(count: nat): string {
    "\n\U{2026} [" + Decimal(count) + " bytes truncated] \U{2026}\n"
  }

  // `clean` is cut to its first i and last |clean| - j characters: the longest head and tail
  // of at most `half` bytes each.
  ghost predicate HeadAndTail(clean: string, half: nat, i: int, j: int) {
    && 0 <= i <= j <= |clean|
    && ByteLen(clean[..i]) <= half && (i < |clean| ==> ByteLen(clean[..i + 1]) > half)
    && ByteLen(clean[j..]) <= half && (j > 0 ==> ByteLen(clean[j - 1..]) > half)
  }

  // The head and the tail with the count of the bytes in between.
  ghost function Stored(clean: string, i: int, j: int): seq<byte>
    requires 0 <= i <= j <= |clean|
  {
    Encode(clean[..i] + Marker(ByteLen(clean[i..j])) + clean[j..])
  }

  // The bytes of the stored body: the sanitised text, or its head and tail around a marker
  // that counts the bytes in between.
  method TruncateResponseBody(s: string, max: nat) returns (out: seq<byte>)
    ensures ByteLen(Sanitized(s)) <= max ==> out == Encode(Sanitized(s))
    ensures ByteLen(Sanitized(s)) > max ==>
      exists i, j :: HeadAndTail(Sanitized(s), max / 2, i, j) && out == Stored(Sanitized(s), i, j)
    ensures |out| <= max <==> ByteLen(Sanitized(s)) <= max
  {
    var clean := SanitizeForPersistence(s);
    if ByteLen(clean) <= max {
      return Encode(clean);
    }
    out := CutBody(clean, max);
  }

  method CutBody(clean: string, max: nat) returns (out: seq<byte>)
    requires ByteLen(clean) > max
    ensures exists i, j :: HeadAndTail(clean, max / 2, i, j) && out == Stored(clean, i, j)
    ensures |out| > max
  {
    var bytes := Encode(clean);
    var half := max / 2;
    var headEnd := CharBoundaryFloor(clean, half);
    var tailStart := CharBoundaryCeil(clean, |bytes| - half);
    var truncated := |bytes| - (headEnd + (|bytes| - tailStart));
    out := bytes[..headEnd] + Encode(Marker(truncated)) + bytes[tailStart..];
    assert out == Spliced(bytes, headEnd, tailStart);
    CutIsStored(clean, max, headEnd, tailStart);
  }

  lemma CutIsStored(clean: string, max: nat, headEnd: nat, tailStart: nat)
    requires ByteLen(clean) > max && headEnd <= max / 2 < ByteLen(clean) - max / 2 <= tailStart <= ByteLen(clean)
    requires IsCharBoundary(Encode(clean), headEnd) && IsCharBoundary(Encode(clean), tailStart)
    requires forall b :: headEnd < b <= max / 2 ==> !IsCharBoundary(Encode(clean), b)
    requires forall b :: ByteLen(clean) - max / 2 <= b < tailStart ==> !IsCharBoundary(Encode(clean), b)
    ensures var out := Spliced(Encode(clean), headEnd, tailStart);
      |out| > max && exists i, j :: HeadAndTail(clean, max / 2, i, j) && out == Stored(clean, i, j)
  {
    CutsAreCharacters(clean, max / 2, headEnd, tailStart);
    StoredExceeds(clean, max, Spliced(Encode(clean), headEnd, tailStart));
  }

  lemma StoredExceeds(clean: string, max: nat, out: seq<byte>)
    requires ByteLen(clean) > max
    requires exists i, j :: HeadAndTail(clean, max / 2, i, j) && out == Stored(clean, i, j)
    ensures |out| > max
  {
    var i, j :| HeadAndTail(clean, max / 2, i, j) && out == Stored(clean, i, j);
    StoredLen(clean, max, i, j);
  }

  lemma HeadCut(clean: string, half: nat, headEnd: nat) returns (i: nat)
    requires headEnd <= half < ByteLen(clean) && IsCharBoundary(Encode(clean), headEnd)
    requires forall b :: headEnd < b <= half ==> !IsCharBoundary(Encode(clean), b)
    ensures i < |clean| && Encode(clean[..i]) == Encode(clean)[..headEnd]
    ensures ByteLen(clean[..i]) <= half < ByteLen(clean[..i + 1])
  {
    i := BoundaryEndsPrefix(clean, headEnd);
    assert clean[..|clean|] == clean;
    EncodeGrows(clean, i, i + 1);
    PrefixEndsAtBoundary(clean, i + 1);
  }

  lemma TailCut(clean: string, half: nat, tailStart: nat) returns (j: nat)
    requires 0 < ByteLen(clean) - half <= tailStart <= ByteLen(clean) && IsCharBoundary(Encode(clean), tailStart)
    requires forall b :: ByteLen(clean) - half <= b < tailStart ==> !IsCharBoundary(Encode(clean), b)
    ensures 0 < j <= |clean| && Encode(clean[j..]) == Encode(clean)[tailStart..]
    ensures ByteLen(clean[..j]) == tailStart
    ensures ByteLen(clean[j..]) <= half < ByteLen(clean[j - 1..])
  {
    j := BoundaryEndsPrefix(clean, tailStart);
    assert j > 0 by {
      assert clean[..0] == "";
    }
    EncodeGrows(clean, j - 1, j);
    PrefixEndsAtBoundary(clean, j - 1);
    EncodeSplit(clean, j - 1);
    EncodeSplit(clean, j);
  }

  lemma CutsAreCharacters(clean: string, half: nat, headEnd: nat, tailStart: nat)
    requires headEnd <= half < ByteLen(clean) - half <= tailStart <= ByteLen(clean)
    requires IsCharBoundary(Encode(clean), headEnd) && IsCharBoundary(Encode(clean), tailStart)
    requires forall b :: headEnd < b <= half ==> !IsCharBoundary(Encode(clean), b)
    requires forall b :: ByteLen(clean) - half <= b < tailStart ==> !IsCharBoundary(Encode(clean), b)
    ensures exists i, j :: HeadAndTail(clean, half, i, j)
              && Stored(clean, i, j) == Spliced(Encode(clean), headEnd, tailStart)
  {
    var i := HeadCut(clean, half, headEnd);
    var j := TailCut(clean, half, tailStart);
    if j < i {
      EncodeGrows(clean, j, i);
    }
    StoredIsSpliced(clean, i, j, headEnd, tailStart);
    assert HeadAndTail(clean, half, i, j);
  }

  function Spliced(bytes: seq<byte>, headEnd: nat, tailStart: nat): seq<byte>
    requires headEnd <= tailStart <= |bytes|
  {
    bytes[..headEnd] + Encode(Marker(tailStart - headEnd)) + bytes[tailStart..]
  }

  lemma StoredIsSpliced(clean: string, i: nat, j: nat, headEnd: nat, tailStart: nat)
    requires i <= j <= |clean| && headEnd <= tailStart == ByteLen(clean[..j]) <= ByteLen(clean)
    requires Encode(clean[..i]) == Encode(clean)[..headEnd] && Encode(clean[j..]) == Encode(clean)[tailStart..]
    ensures Stored(clean, i, j) == Spliced(Encode(clean), headEnd, tailStart)
  {
    BetweenLen(clean, i, j);
    assert ByteLen(clean[i..j]) == tailStart - headEnd;
    StoredBytes(clean, i, j);
  }

  lemma StoredBytes(clean: string, i: nat, j: nat)
    requires i <= j <= |clean|
    ensures Stored(clean, i, j) == Encode(clean[..i]) + Encode(Marker(ByteLen(clean[i..j]))) + Encode(clean[j..])
  {
    EncodeThree(clean[..i], Marker(ByteLen(clean[i..j])), clean[j..]);
  }

  lemma BetweenLen(clean: string, i: nat, j: nat)
    requires i <= j <= |clean|
    ensures ByteLen(clean[i..j]) == ByteLen(clean[..j]) - ByteLen(clean[..i])
  {
    EncodeSplit(clean[..j], i);
    assert clean[..j][..i] == clean[..i] && clean[..j][i..] == clean[i..j];
  }

  lemma EncodeThree(a: string, b: string, c: string)
    ensures Encode(a + b + c) == Encode(a) + Encode(b) + Encode(c)
  {
    EncodeConcat(a, b);
    EncodeConcat(a + b, c);
  }

  // Something is always cut out, and head, count and tail add up to the whole.
  lemma BytesAddUp(clean: string, max: nat, i: int, j: int)
    requires ByteLen(clean) > max && HeadAndTail(clean, max / 2, i, j)
    ensures ByteLen(clean[i..j]) >= 1
    ensures ByteLen(clean[..i]) + ByteLen(clean[i..j]) + ByteLen(clean[j..]) == ByteLen(clean)
  {
    EncodeSplit(clean, j);
    BetweenLen(clean, i, j);
  }

  /******* What a reader of the stored body relies on *******/

  lemma {:induction false} DecimalIsClean(n: nat)
    ensures forall x :: x in Decimal(n) ==> '0' <= x <= '9'
  {
    if n >= 10 {
      DecimalIsClean(n / 10);
    }
  }

  // The stored text: the head, the marker with its two newlines, the tail.
  function StoredText(clean: string, i: int, j: int, count: nat): string
    requires 0 <= i <= j <= |clean|
  {
    clean[..i] + Marker(count) + clean[j..]
  }

  // A raw control character besides tab is one of the two newlines of the marker, or a C1 of the
  // head or the tail.
  lemma StoredBodyIsClean(s: string, i: int, j: int, count: nat, p: nat)
    requires 0 <= i <= j <= |Sanitized(s)| && p < |StoredText(Sanitized(s), i, j, count)|
    ensures var body, last := StoredText(Sanitized(s), i, j, count), i + |Marker(count)| - 1;
      IsCc(body[p]) && body[p] != '\t' ==>
        (body[p] == '\n' && (p == i || p == last)) || (IsC1(body[p]) && (p < i || p > last))
  {
    SanitizedIsClean(s);
    var clean, marker := Sanitized(s), Marker(count);
    TwoKinds(StoredText(clean, i, j, count)[p]);
    if i <= p < i + |marker| {
      MarkerControls(count, p - i);
      InMiddle(clean[..i], marker, clean[j..], p);
    } else {
      AtEnds(clean, marker, i, j, p);
    }
  }

  lemma InMiddle(a: string, m: string, b: string, p: nat)
    requires |a| <= p < |a| + |m|
    ensures (a + m + b)[p] == m[p - |a|]
  {
  }

  lemma AtEnds(clean: string, m: string, i: int, j: int, p: nat)
    requires 0 <= i <= j <= |clean| && (p < i || i + |m| <= p < i + |m| + |clean| - j)
    ensures (clean[..i] + m + clean[j..])[p] == clean[if p < i then p else p - |m| - i + j]
  {
  }

  // The C1 characters of head, cut and tail are those of the body that came in; so the stored
  // text has no control character but tabs and the two newlines exactly when head and tail
  // have no C1.
  lemma StoredC1s(s: string, i: int, j: int)
    requires 0 <= i <= j <= |Sanitized(s)|
    ensures var clean := Sanitized(s); C1s(clean[..i]) + C1s(clean[i..j]) + C1s(clean[j..]) == C1s(s)
    ensures var clean := Sanitized(s); IsPlain(clean[..i] + clean[j..]) <==> C1s(clean[..i]) + C1s(clean[j..]) == ""
  {
    var clean := Sanitized(s);
    SanitizedIsClean(s);
    assert clean == clean[..i] + clean[i..j] + clean[j..];
    C1sConcat(clean[..i] + clean[i..j], clean[j..]);
    C1sConcat(clean[..i], clean[i..j]);
    C1sConcat(clean[..i], clean[j..]);
    PlainIs(clean[..i] + clean[j..]);
  }

  lemma MarkerControls(count: nat, q: nat)
    requires q < |Marker(count)|
    ensures IsCc(Marker(count)[q]) ==> Marker(count)[q] == '\n' && (q == 0 || q == |Marker(count)| - 1)
  {
    DecimalIsClean(count);
    var digits := Decimal(count);
    assert forall d :: 0 <= d < |digits| ==> digits[d] in digits;
  }

  /******* How long a stored body is *******/

  lemma {:induction false} DecimalLen(n: nat)
    ensures |Decimal(n)| >= 1 && ByteLen(Decimal(n)) == |Decimal(n)|
  {
    DecimalIsClean(n);
    AsciiLen(Decimal(n));
  }

  // `\n`, an ellipsis and ` [`; the digits; ` bytes truncated] `, an ellipsis and `\n`.
  const MARKER_BYTES := 28

  lemma MarkerLen(count: nat)
    ensures ByteLen(Marker(count)) == MARKER_BYTES + |Decimal(count)|
  {
    DecimalLen(count);
    MarkerEnds();
    EncodeThree("\n\U{2026} [", Decimal(count), " bytes truncated] \U{2026}\n");
  }

  lemma MarkerEnds()
    ensures ByteLen("\n\U{2026} [") == 6 && ByteLen(" bytes truncated] \U{2026}\n") == 22
  {
    AroundEllipsis("\n", " [");
    AroundEllipsis(" bytes truncated] ", "\n");
    assert "\n" + "\U{2026}" + " [" == "\n\U{2026} [";
    assert " bytes truncated] " + "\U{2026}" + "\n" == " bytes truncated] \U{2026}\n";
  }

  lemma AroundEllipsis(a: string, b: string)
    requires forall x :: x in a + b ==> x < 0x80 as char
    ensures ByteLen(a + "\U{2026}" + b) == |a| + 3 + |b|
  {
    assert forall x :: x in a || x in b ==> x in a + b;
    AsciiLen(a);
    AsciiLen(b);
    EncodeOne('\U{2026}');
    EncodeThree(a, "\U{2026}", b);
  }

  // A longest head or tail falls short of its half by three bytes at most.
  lemma HeadIsLong(clean: string, half: nat, i: int, j: int)
    requires HeadAndTail(clean, half, i, j) && ByteLen(clean) > half
    ensures ByteLen(clean[..i]) >= half - 3 && ByteLen(clean[j..]) >= half - 3
  {
    assert clean[..|clean|] == clean && clean[0..] == clean;
    EncodeSplit(clean[..i + 1], i);
    assert clean[..i + 1][..i] == clean[..i] && clean[..i + 1][i..] == [clean[i]];
    EncodeOne(clean[i]);
    EncodeSplit(clean[j - 1..], 1);
    assert clean[j - 1..][..1] == [clean[j - 1]] && clean[j - 1..][1..] == clean[j..];
    EncodeOne(clean[j - 1]);
  }

  // A cut body takes up `max` and the marker at most, and always more than `max`: what is
  // stored is within `max` exactly when nothing is cut.
  lemma StoredLen(clean: string, max: nat, i: int, j: int)
    requires ByteLen(clean) > max && HeadAndTail(clean, max / 2, i, j)
    ensures var count := ByteLen(clean[i..j]);
      && |Stored(clean, i, j)| == ByteLen(clean[..i]) + MARKER_BYTES + |Decimal(count)| + ByteLen(clean[j..])
      && max + MARKER_BYTES - 6 <= |Stored(clean, i, j)| <= max + MARKER_BYTES + |Decimal(count)|
  {
    var count := ByteLen(clean[i..j]);
    MarkerLen(count);
    DecimalLen(count);
    EncodeThree(clean[..i], Marker(count), clean[j..]);
    HeadIsLong(clean, max / 2, i, j);
  }
}
