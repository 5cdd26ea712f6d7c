/**
 Reading a child's pipe (src/executor/shell.rs) and an HTTP body (src/executor/http.rs) in
 chunks, up to a limit, and cutting an error text down for its message.
 */
module BoundedRead {
  import opened Wrappers
  import opened Utf8
  import opened Controls
  import Security

  // What one read gives. A list of reads that has run out stands for end of file.
  datatype Read = Data(bytes: seq<byte>) | Failed

  datatype ReadError = Broken | TooLarge(limit: nat)

  /******* The child's pipe *******/

  // `...\n[output truncated]\n`
  const OUTPUT_MARKER := Encode("...\n[output truncated]\n")

  // The bytes of the stream: a read of no bytes ends it, a failed read breaks it off.
  function PipeBytes(arriving: seq<Read>): seq<byte> {
    if arriving == [] || arriving[0].Failed? || arriving[0].bytes == [] then []
    else arriving[0].bytes + PipeBytes(arriving[1..])
  }

  predicate PipeBreaks(arriving: seq<Read>) {
    arriving != [] && (arriving[0].Failed? || (arriving[0].bytes != [] && PipeBreaks(arriving[1..])))
  }

  method DrainPipe(arriving: seq<Read>) returns (left: seq<Read>)
    ensures left == [] || left[0].Failed? || left[0].bytes == []
  {
    left := arriving;
    while left != [] && left[0].Data? && left[0].bytes != []
      decreases |left|
    {
      left := left[1..];
    }
  }

  lemma FirstBytes(buf: seq<byte>, chunk: seq<byte>, rest: seq<byte>, limit: nat)
    requires |buf| <= limit <= |buf| + |chunk|
    ensures (buf + (chunk + rest))[..limit] == buf + chunk[..limit - |buf|]
    ensures buf + (chunk + rest) == buf + chunk + rest
  {
  }

  // The whole stream if it fits, else its first `limit` bytes and the marker. A read error
  // counts only as long as the limit has not been passed.
  method ReadPipe(arriving: seq<Read>, limit: nat) returns (r: Result<seq<byte>, ReadError>)
    ensures r ==
      if |PipeBytes(arriving)| > limit then Ok(PipeBytes(arriving)[..limit] + OUTPUT_MARKER)
      else if PipeBreaks(arriving) then Err(Broken)
      else Ok(PipeBytes(arriving))
  {
    var buf: seq<byte> := [];
    var left := arriving;
    while true
      invariant |buf| <= limit
      invariant PipeBytes(arriving) == buf + PipeBytes(left) && PipeBreaks(arriving) == PipeBreaks(left)
      decreases |left|
    {
      if left != [] && left[0].Failed? {
        return Err(Broken);
      }
      if left == [] || left[0].bytes == [] {
        assert buf + [] == buf;
        return Ok(buf);
      }
      var chunk := left[0].bytes;
      left := left[1..];
      assert buf + (chunk + PipeBytes(left)) == buf + chunk + PipeBytes(left);
      if |buf| + |chunk| > limit {
        var room := if limit >= |buf| then limit - |buf| else 0;
        FirstBytes(buf, chunk, PipeBytes(left), limit);
        buf := buf + chunk[..room];
        buf := buf + OUTPUT_MARKER;
        left := DrainPipe(left);
        return Ok(buf);
      }
      buf := buf + chunk;
    }
  }

  /******* The HTTP body *******/

  // A chunk of no bytes does not end the body.
  function BodyBytes(chunks: seq<Read>): seq<byte> {
    if chunks == [] || chunks[0].Failed? then []
    else chunks[0].bytes + BodyBytes(chunks[1..])
  }

  predicate BodyBreaks(chunks: seq<Read>) {
    chunks != [] && (chunks[0].Failed? || BodyBreaks(chunks[1..]))
  }

  // Refused exactly when there are more bytes than the limit, before any break.
  method ReadBody(chunks: seq<Read>, limit: nat) returns (r: Result<seq<byte>, ReadError>)
    ensures r ==
      if |BodyBytes(chunks)| > limit then Err(TooLarge(limit))
      else if BodyBreaks(chunks) then Err(Broken)
      else Ok(BodyBytes(chunks))
  {
    var buf: seq<byte> := [];
    var left := chunks;
    while left != []
      invariant |buf| <= limit
      invariant BodyBytes(chunks) == buf + BodyBytes(left) && BodyBreaks(chunks) == BodyBreaks(left)
      decreases |left|
    {
      if left[0].Failed? {
        return Err(Broken);
      }
      var chunk := left[0].bytes;
      left := left[1..];
      assert buf + (chunk + BodyBytes(left)) == buf + chunk + BodyBytes(left);
      if |buf| + |chunk| > limit {
        return Err(TooLarge(limit));
      }
      buf := buf + chunk;
    }
    assert buf + [] == buf;
    r := Ok(buf);
  }

  /******* Chunking *******/

  function Joined(pieces: seq<seq<byte>>): seq<byte> {
    if pieces == [] then [] else pieces[0] + Joined(pieces[1..])
  }

  // Pieces as they arrive, and then the end or a break.
  function Arriving(pieces: seq<seq<byte>>, breaks: bool): seq<Read> {
    if pieces == [] then if breaks then [Failed] else []
    else [Data(pieces[0])] + Arriving(pieces[1..], breaks)
  }

  // Both readers see only the bytes and how they end, not how they were cut up; for the pipe
  // the pieces must not be empty, for that is how its end is told.
  lemma {:induction false} ChunkingIsInvisible(pieces: seq<seq<byte>>, breaks: bool)
    ensures BodyBytes(Arriving(pieces, breaks)) == Joined(pieces) && BodyBreaks(Arriving(pieces, breaks)) == breaks
    ensures [] !in pieces ==>
      PipeBytes(Arriving(pieces, breaks)) == Joined(pieces) && PipeBreaks(Arriving(pieces, breaks)) == breaks
  {
    if pieces != [] {
      ChunkingIsInvisible(pieces[1..], breaks);
      assert Arriving(pieces, breaks)[1..] == Arriving(pieces[1..], breaks);
      assert [] !in pieces ==> [] !in pieces[1..] && pieces[0] != [];
    }
  }

  /******* Error texts *******/

  // `truncate` of both executors: the longest run of whole characters within `max` bytes, and
  // the suffix, unless the text fits.
  method Truncate(s: string, max: nat, suffix: string) returns (out: seq<byte>)
    ensures ByteLen(s) <= max ==> out == Encode(s)
    ensures ByteLen(s) > max ==> exists k :: CutAt(s, max, k) && out == Encode(s[..k] + suffix)
  {
    var bytes := Encode(s);
    if |bytes| <= max {
      return bytes;
    }
    var end := if max <= |bytes| then max else |bytes|;
    while !IsCharBoundary(bytes, end) && end > 0
      invariant 0 <= end <= max
      invariant forall b: nat :: end < b <= max ==> !IsCharBoundary(bytes, b)
    {
      end := end - 1;
    }
    var k := Security.HeadCut(s, max, end);
    out := bytes[..end] + Encode(suffix);
    EncodeConcat(s[..k], suffix);
    assert CutAt(s, max, k);
  }

  // `shown` is what is left of `text`: its control characters are tabs and the C1 characters of
  // the first m characters of the text.
  ghost predicate Shows(shown: string, text: string, m: int) {
    0 <= m <= |text| && OnlyC1(shown) && C1s(shown) == C1s(text[..m])
  }

  // The error text of a failed script (512 bytes and an ellipsis) or request (1024 bytes and
  // `... (truncated)`): what the upstream wrote, escaped first and cut down then. All that is
  // left of control characters is tabs and the C1 characters of the part shown, and the length
  // is bounded.
  method ErrorText(text: string, max: nat, suffix: string) returns (out: seq<byte>)
    requires IsPlain(suffix)
    ensures exists shown, m :: Shows(shown, text, m) && out == Encode(shown)
    ensures ByteLen(Security.Sanitized(text)) <= max && max <= Security.LOG_CAP - Security.LONGEST_ESCAPE ==>
      out == Encode(Security.Sanitized(text))
    ensures |out| <= max + ByteLen(suffix)
  {
    var sanitised := Security.SanitizeForLog(text);
    ghost var k := Security.LogTextShows(text, sanitised);
    out := Truncate(sanitised, max, suffix);
    CutShows(sanitised, text, k, max, suffix, out);
  }

  lemma CutShows(log: string, text: string, k: int, max: nat, suffix: string, out: seq<byte>)
    requires Security.IsFormOf(text, log, k) && IsPlain(suffix)
    requires ByteLen(log) <= max ==> out == Encode(log)
    requires ByteLen(log) > max ==> exists n :: CutAt(log, max, n) && out == Encode(log[..n] + suffix)
    ensures exists shown, m :: Shows(shown, text, m) && out == Encode(shown)
    ensures |out| <= max + ByteLen(suffix)
  {
    Security.LogTextIsClean(text[..k], log);
    if ByteLen(log) <= max {
      assert Shows(log, text, k);
    } else {
      var n :| CutAt(log, max, n) && out == Encode(log[..n] + suffix);
      EncodeConcat(log[..n], suffix);
      var m := PrefixShows(log, text, k, n);
      PlainAfter(log[..n], suffix);
      assert Shows(log[..n] + suffix, text, m);
    }
  }

  // The C1 characters of a beginning of the escaped text are those of a beginning of the text.
  lemma {:induction false} PrefixC1s(s: string, n: nat) returns (m: nat)
    requires n <= |Security.Sanitized(s)|
    ensures m <= |s| && C1s(Security.Sanitized(s)[..n]) == C1s(s[..m])
  {
    if s == "" || n < |Security.Escape(s[0])| {
      m := 0;
      assert s[..0] == "";
      if s != "" {
        EscapeCut(s[0], n);
        assert Security.Sanitized(s)[..n] == Security.Escape(s[0])[..n];
      }
    } else {
      var e := Security.Escape(s[0]);
      var later := PrefixC1s(s[1..], n - |e|);
      m := later + 1;
      Security.EscapeIsClean(s[0]);
      assert Security.Sanitized(s)[..n] == e + Security.Sanitized(s[1..])[..n - |e|];
      C1sConcat(e, Security.Sanitized(s[1..])[..n - |e|]);
      assert s[..m][0] == s[0] && s[..m][1..] == s[1..][..later];
    }
  }

  lemma EscapeCut(c: char, n: nat)
    requires n < |Security.Escape(c)|
    ensures C1s(Security.Escape(c)[..n]) == ""
  {
    var e := Security.Escape(c);
    Security.EscapeIsClean(c);
    if |e| > 1 {
      assert !IsC1(c);
      NoC1s(e);
    }
    NoC1s(e[..n]);
  }

  lemma PrefixShows(log: string, text: string, k: int, n: nat) returns (m: int)
    requires Security.IsFormOf(text, log, k) && n <= |log|
    ensures Shows(log[..n], text, m)
  {
    Security.MarkerIsPlain();
    m := PrefixOfForm(text[..k], Security.LOG_MARKER, log, n);
    assert text[..k][..m] == text[..m];
  }

  lemma PrefixOfForm(shown: string, marker: string, log: string, n: nat) returns (m: nat)
    requires IsPlain(marker) && n <= |log|
    requires log == Security.Sanitized(shown) || log == Security.Sanitized(shown) + marker
    ensures m <= |shown| && OnlyC1(log[..n]) && C1s(log[..n]) == C1s(shown[..m])
  {
    var clean := Security.Sanitized(shown);
    Security.SanitizedIsClean(shown);
    if n <= |clean| {
      assert log[..n] == clean[..n];
      m := PrefixC1s(shown, n);
    } else {
      m := |shown|;
      assert shown[..m] == shown && log[..n] == clean + marker[..n - |clean|];
      PlainPrefix(marker, n - |clean|);
      PlainAfter(clean, marker[..n - |clean|]);
    }
  }

  // So an error text is plain exactly when the part of the text it shows has no C1.
  lemma ErrorTextIsPlain(shown: string, text: string, m: int)
    requires Shows(shown, text, m)
    ensures IsPlain(shown) <==> forall i :: 0 <= i < m ==> !IsC1(text[i])
  {
    PlainIs(shown);
    NoC1s(text[..m]);
  }

  ghost predicate CutAt(s: string, max: nat, k: int) {
    0 <= k < |s| && ByteLen(s[..k]) <= max < ByteLen(s[..k + 1])
  }
}
