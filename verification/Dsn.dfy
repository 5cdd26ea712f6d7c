/**
 The database URL: percent-encoding a password and splicing it in (src/config.rs), and
 taking it out again for the log (src/main.rs).
 */
module Dsn {
  import opened Wrappers
  import opened Text
  import opened Utf8

  /******* Percent-encoding *******/

  // Section 2.3 of RFC 3986.
  predicate IsUnreserved(b: byte) {
    || ('A' as int <= b <= 'Z' as int) || ('a' as int <= b <= 'z' as int) || ('0' as int <= b <= '9' as int)
    || b == '-' as int || b == '.' as int || b == '_' as int || b == '~' as int
  }

  const UPPER_HEX := "0123456789ABCDEF"

  function EncodeByte(b: byte): string {
    if IsUnreserved(b) then [b as char] else ['%', UPPER_HEX[b / 16], UPPER_HEX[b % 16]]
  }

  function PercentEncoded(bs: seq<byte>): string {
    if bs == [] then "" else EncodeByte(bs[0]) + PercentEncoded(bs[1..])
  }

  lemma {:induction false} PercentEncodedConcat(a: seq<byte>, b: seq<byte>)
    ensures PercentEncoded(a + b) == PercentEncoded(a) + PercentEncoded(b)
  {
    if a == [] {
      assert a + b == b;
    } else {
      assert (a + b)[1..] == a[1..] + b;
      PercentEncodedConcat(a[1..], b);
    }
  }

  method PercentEncode(s: string) returns (out: string)
    ensures out == PercentEncoded(Encode(s))
  {
    out := "";
    var bytes := Encode(s);
    for i := 0 to |bytes|
      invariant out == PercentEncoded(bytes[..i])
    {
      assert bytes[..i + 1] == bytes[..i] + [bytes[i]];
      PercentEncodedConcat(bytes[..i], [bytes[i]]);
      assert [bytes[i]][1..] == [];
      assert PercentEncoded([bytes[i]]) == EncodeByte(bytes[i]) + "";
      var b := bytes[i];
      if IsUnreserved(b) {
        out := out + [b as char];
      } else {
        out := out + ['%', UPPER_HEX[b / 16], UPPER_HEX[b % 16]];
      }
    }
    assert bytes[..|bytes|] == bytes;
  }

  function HexValue(c: char): Option<nat> {
    if '0' <= c <= '9' then Some(c as int - '0' as int)
    else if 'A' <= c <= 'F' then Some(c as int - 'A' as int + 10)
    else if 'a' <= c <= 'f' then Some(c as int - 'a' as int + 10)
    else None
  }

  // Percent-decoding (section 2.1 of RFC 3986); None for a broken triplet.
  function PercentDecoded(t: string): Option<seq<byte>> {
    if t == "" then Some([])
    else if t[0] != '%' then
      match PercentDecoded(t[1..])
      case None => None
      case Some(rest) => Some(Octets(t[0]) + rest)
    else if |t| < 3 || HexValue(t[1]) == None || HexValue(t[2]) == None then None
    else
      match PercentDecoded(t[3..])
      case None => None
      case Some(rest) => Some([HexValue(t[1]).value * 16 + HexValue(t[2]).value] + rest)
  }

  lemma EncodeByteDecodes(b: byte, t: string)
    ensures PercentDecoded(EncodeByte(b) + t) ==
      match PercentDecoded(t) case None => None case Some(rest) => Some([b] + rest)
  {
    var s := EncodeByte(b) + t;
    if IsUnreserved(b) {
      assert s[1..] == t && Octets(b as char) == [b];
    } else {
      assert s[3..] == t;
      HexDigit(b / 16);
      HexDigit(b % 16);
    }
  }

  lemma HexDigit(d: nat)
    requires d < 16
    ensures HexValue(UPPER_HEX[d]) == Some(d)
  {
  }

  // Decoding gives back the bytes; so no two passwords are encoded alike.
  lemma {:induction false} PercentRoundTrip(bs: seq<byte>)
    ensures PercentDecoded(PercentEncoded(bs)) == Some(bs)
  {
    if bs != [] {
      PercentRoundTrip(bs[1..]);
      EncodeByteDecodes(bs[0], PercentEncoded(bs[1..]));
      assert [bs[0]] + bs[1..] == bs;
    }
  }

  // Only unreserved characters and `%` come out, so nothing that a URL is split at.
  lemma {:induction false} PercentAlphabet(bs: seq<byte>)
    ensures forall c :: c in PercentEncoded(bs) ==> c == '%' || (c < 0x80 as char && IsUnreserved(c as int))
  {
    if bs != [] {
      PercentAlphabet(bs[1..]);
    }
  }

  /******* Splicing *******/

  function Encoded(password: string): string {
    PercentEncoded(Encode(password))
  }

  // Up to and including the first `://`, and the rest.
  function SplitScheme(url: string): (r: Option<(string, string)>)
    ensures r.Some? ==> r.value.0 + r.value.1 == url && EndsScheme(r.value.0)
  {
    match Find(url, "://")
    case None => None
    case Some(e) =>
      FindSound(url, "://");
      FindStable(url, url[..e + 3], "://");
      Some((url[..e + 3], url[e + 3..]))
  }

  predicate EndsScheme(scheme: string) {
    |scheme| >= 3 && Find(scheme, "://") == Some(|scheme| - 3)
  }

  lemma SplitSchemeIs(scheme: string, after: string)
    requires EndsScheme(scheme)
    ensures SplitScheme(scheme + after) == Some((scheme, after))
  {
    FindStable(scheme, scheme + after, "://");
  }

  function SplicePassword(url: string, password: string): string {
    var encoded := Encoded(password);
    match SplitScheme(url)
    case None => url
    case Some((scheme, after)) =>
      var (authority, rest) := SplitFirst(after, '/');
      var (userinfo, host) := match SplitLast(authority, '@') case Some(p) => p case None => ("", authority);
      var user := SplitFirst(userinfo, ':').0;
      var newAuthority :=
        if user == "" then ":" + encoded + "@" + host else user + ":" + encoded + "@" + host;
      scheme + newAuthority + rest
  }

  // A URL read back: the scheme with its `://`, the user and password of the part before the
  // last `@` of the authority, the host, and what follows.
  datatype Parts = Parts(scheme: string, user: string, password: Option<string>, host: string, rest: string)

  // The parts do not run into each other.
  ghost predicate WellFormed(p: Parts) {
    && EndsScheme(p.scheme)
    && '/' !in p.user && ':' !in p.user
    && '/' !in p.host && '@' !in p.host
    && (p.rest == "" || p.rest[0] == '/')
  }

  function Parse(url: string): (r: Option<Parts>)
    ensures r.Some? ==> WellFormed(r.value)
    ensures r == None <==> SplitScheme(url) == None
  {
    match SplitScheme(url)
    case None => None
    case Some((scheme, after)) =>
      var (authority, rest) := SplitFirst(after, '/');
      match SplitLast(authority, '@')
      case None => Some(Parts(scheme, "", None, authority, rest))
      case Some((userinfo, host)) =>
        var (user, tail) := SplitFirst(userinfo, ':');
        Some(Parts(scheme, user, if tail == "" then None else Some(tail[1..]), host, rest))
  }

  function WithPassword(p: Parts, encoded: string): string {
    p.scheme + (p.user + ":" + encoded + "@" + p.host) + p.rest
  }

  lemma NewAuthority(user: string, encoded: string, host: string)
    ensures (if user == "" then ":" + encoded + "@" + host else user + ":" + encoded + "@" + host)
         == user + ":" + encoded + "@" + host
  {
    assert "" + ":" == ":";
  }

  // Splicing keeps scheme, user, host and rest, and replaces the password.
  lemma SpliceIs(url: string, password: string)
    ensures SplicePassword(url, password) ==
      match Parse(url) case None => url case Some(p) => WithPassword(p, Encoded(password))
  {
    match SplitScheme(url)
    case None =>
    case Some((scheme, after)) =>
      var (authority, rest) := SplitFirst(after, '/');
      match SplitLast(authority, '@')
      case Some((userinfo, host)) => NewAuthority(SplitFirst(userinfo, ':').0, Encoded(password), host);
      case None =>
        assert SplitFirst("", ':').0 == "";
        NewAuthority("", Encoded(password), authority);
  }

  // Reading back a URL put together from parts gives those parts.
  lemma ParseWithPassword(p: Parts, encoded: string)
    requires WellFormed(p)
    requires '/' !in encoded && '@' !in encoded
    ensures Parse(WithPassword(p, encoded)) == Some(p.(password := Some(encoded)))
  {
    var userinfo := p.user + (":" + encoded);
    var authority := userinfo + ['@'] + p.host;
    assert p.user + ":" + encoded + "@" + p.host == authority;
    assert WithPassword(p, encoded) == p.scheme + (authority + p.rest);
    SplitSchemeIs(p.scheme, authority + p.rest);
    SplitFirstIs(authority, p.rest, '/');
    SplitLastIs(userinfo, p.host, '@');
    SplitFirstIs(p.user, ":" + encoded, ':');
    assert (":" + encoded)[1..] == encoded;
  }

  // The password read back and decoded is the one spliced in, and all else is unchanged.
  lemma SpliceRoundTrip(url: string, password: string)
    requires Parse(url).Some?
    ensures Parse(SplicePassword(url, password)) == Some(Parse(url).value.(password := Some(Encoded(password))))
    ensures PercentDecoded(Encoded(password)) == Some(Encode(password))
  {
    SpliceIs(url, password);
    PercentAlphabet(Encode(password));
    ParseWithPassword(Parse(url).value, Encoded(password));
    PercentRoundTrip(Encode(password));
  }

  // A second splice absorbs the first.
  lemma SpliceAbsorbs(url: string, p: string, q: string)
    ensures SplicePassword(SplicePassword(url, p), q) == SplicePassword(url, q)
  {
    SpliceIs(url, p);
    SpliceIs(url, q);
    if Parse(url).Some? {
      SpliceRoundTrip(url, p);
      SpliceIs(SplicePassword(url, p), q);
    }
  }

  // Different passwords give different URLs.
  lemma SpliceIsInjective(url: string, p: string, q: string)
    requires Parse(url).Some? && SplicePassword(url, p) == SplicePassword(url, q)
    ensures p == q
  {
    SpliceRoundTrip(url, p);
    SpliceRoundTrip(url, q);
    EncodeInjective(p, q);
  }

  /******* Redacting *******/

  function RedactPassword(dsn: string): string {
    var prefix := if "jdbc:" <= dsn then "jdbc:" else "";
    match SplitScheme(dsn[|prefix|..])
    case None => dsn
    case Some((scheme, after)) =>
      var (userinfo, tail) := SplitFirst(after, '@');
      if tail == "" then dsn
      else prefix + scheme + SplitFirst(userinfo, ':').0 + ":***" + tail
  }

  // Stripping `jdbc:` only shortens the scheme, unless the scheme is `jdbc://` itself.
  lemma {:induction false} SchemeShift(scheme: string, n: nat)
    requires EndsScheme(scheme) && n + 3 <= |scheme|
    ensures EndsScheme(scheme[n..])
  {
    if n == 0 {
      assert scheme[0..] == scheme;
    } else {
      assert !("://" <= scheme);
      assert EndsScheme(scheme[1..]);
      SchemeShift(scheme[1..], n - 1);
      assert scheme[1..][n - 1..] == scheme[n..];
    }
  }

  lemma SchemeAfterJdbc(scheme: string, after: string)
    requires EndsScheme(scheme) && !("jdbc://" <= scheme)
    ensures var dsn := scheme + after;
      var n := if "jdbc:" <= dsn then 5 else 0;
      n + 3 <= |scheme| && SplitScheme(dsn[n..]) == Some((scheme[n..], after))
  {
    var dsn := scheme + after;
    FindSound(scheme, "://");
    assert scheme[|scheme| - 3..] == "://";
    assert scheme[|scheme| - 3] == ':' && scheme[|scheme| - 2] == '/' && scheme[|scheme| - 1] == '/';
    if "jdbc:" <= dsn {
      assert forall i :: 0 <= i < 5 ==> dsn[i] == "jdbc:"[i];
      assert dsn[|scheme| - 3] == ':' && dsn[|scheme| - 2] == '/';
      assert |scheme| == 7 ==> scheme == "jdbc:" + "//";
      assert "jdbc:" + "//" == "jdbc://";
      SchemeShift(scheme, 5);
      assert dsn[5..] == scheme[5..] + after;
      SplitSchemeIs(scheme[5..], after);
    } else {
      assert dsn[0..] == dsn && scheme[0..] == scheme;
      SplitSchemeIs(scheme, after);
    }
  }

  // What follows the user in a spliced URL, and from the `@` before the host on.
  function AtHost(p: Parts): string {
    "@" + p.host + p.rest
  }

  lemma WithPasswordIs(p: Parts, encoded: string)
    ensures WithPassword(p, encoded) == p.scheme + (p.user + (":" + encoded + AtHost(p)))
  {
    assert p.user + ":" + encoded + "@" + p.host == p.user + (":" + encoded + ("@" + p.host));
  }

  // With any scheme but `jdbc://`: the user up to its first `@`, and everything from the first
  // `@` after the scheme on.
  lemma RedactOrdinary(p: Parts, encoded: string)
    requires WellFormed(p) && '@' !in encoded && !("jdbc://" <= p.scheme)
    ensures var (shown, hidden) := SplitFirst(p.user, '@');
      RedactPassword(WithPassword(p, encoded)) ==
      p.scheme + (shown + ":***" + if hidden != "" then hidden + (":" + encoded + AtHost(p)) else AtHost(p))
  {
    var (shown, hidden) := SplitFirst(p.user, '@');
    WithPasswordIs(p, encoded);
    if hidden != "" {
      RedactSplicedAt(p, encoded, shown, hidden);
    } else {
      assert p.user == shown;
      RedactSplicedPlain(p, encoded);
    }
  }

  lemma RedactSplicedAt(p: Parts, encoded: string, shown: string, hidden: string)
    requires WellFormed(p) && !("jdbc://" <= p.scheme)
    requires p.user == shown + hidden && hidden != "" && hidden[0] == '@' && '@' !in shown
    ensures var tail := hidden + (":" + encoded + AtHost(p));
      RedactPassword(p.scheme + (p.user + (":" + encoded + AtHost(p)))) == p.scheme + (shown + ":***" + tail)
  {
    var more := ":" + encoded + AtHost(p);
    assert p.user + more == shown + (hidden + more);
    assert forall i :: 0 <= i < |shown| ==> shown[i] == p.user[i] && p.user[i] in p.user;
    SplitFirstIs(shown, "", ':');
    assert shown + "" == shown;
    RedactIs(p.scheme, shown, hidden + more);
  }

  lemma RedactSplicedPlain(p: Parts, encoded: string)
    requires WellFormed(p) && '@' !in p.user && '@' !in encoded && !("jdbc://" <= p.scheme)
    ensures RedactPassword(p.scheme + (p.user + (":" + encoded + AtHost(p)))) == p.scheme + (p.user + ":***" + AtHost(p))
  {
    var userinfo := p.user + (":" + encoded);
    assert p.user + (":" + encoded + AtHost(p)) == userinfo + AtHost(p);
    SplitFirstIs(p.user, ":" + encoded, ':');
    RedactIs(p.scheme, userinfo, AtHost(p));
  }

  lemma RedactIs(scheme: string, userinfo: string, tail: string)
    requires EndsScheme(scheme) && !("jdbc://" <= scheme)
    requires '@' !in userinfo && tail != "" && tail[0] == '@'
    ensures RedactPassword(scheme + (userinfo + tail)) == scheme + (SplitFirst(userinfo, ':').0 + ":***" + tail)
  {
    var dsn := scheme + (userinfo + tail);
    SchemeAfterJdbc(scheme, userinfo + tail);
    SplitFirstIs(userinfo, tail, '@');
    var prefix := if "jdbc:" <= dsn then "jdbc:" else "";
    assert forall i :: 0 <= i < |prefix| ==> scheme[i] == dsn[i] == prefix[i];
    Regroup(prefix, scheme[|prefix|..], scheme, SplitFirst(userinfo, ':').0, tail);
  }

  lemma Regroup(prefix: string, left: string, scheme: string, user: string, tail: string)
    requires |prefix| + |left| == |scheme| && prefix <= scheme && left == scheme[|prefix|..]
    ensures prefix + left + user + ":***" + tail == scheme + (user + ":***" + tail)
  {
    assert prefix + left == scheme;
  }

  // A URL with the scheme `jdbc://` loses the colon of its `://` with the `jdbc:`. What is then
  // looked at is the rest of the URL, and everything before it is shown.
  lemma {:induction false} FindSkips(x: string, b: string, p: string)
    requires forall i :: 0 <= i < |x| ==> !(p <= (x + b)[i..])
    ensures Find(x + b, p) == match Find(b, p) case None => None case Some(e) => Some(|x| + e)
  {
    if x == "" {
      assert x + b == b;
    } else {
      assert !(p <= (x + b)[0..]) && (x + b)[0..] == x + b;
      assert (x + b)[1..] == x[1..] + b;
      assert forall i :: 0 <= i < |x| - 1 ==> (x[1..] + b)[i..] == (x + b)[i + 1..];
      FindSkips(x[1..], b, p);
    }
  }

  // What precedes the host once `jdbc:` is gone.
  function BeforeHost(user: string, encoded: string): string {
    "//" + user + ":" + encoded + "@"
  }

  lemma NoSlashAfterColon(user: string, encoded: string, b: string, i: nat)
    requires ':' !in user && '/' !in encoded && ':' !in encoded && i < |BeforeHost(user, encoded)|
    ensures BeforeHost(user, encoded)[i] == ':' ==> (BeforeHost(user, encoded) + b)[i + 1] != '/'
  {
    var x, u := BeforeHost(user, encoded), 2 + |user|;
    if i < 2 {
      assert x[i] == '/';
    } else if i < u {
      assert x[i] == user[i - 2] && x[i] in user;
    } else if i == u {
      assert (x + b)[i + 1] == x[i + 1] == if encoded == "" then '@' else encoded[0];
      assert encoded != "" ==> encoded[0] in encoded;
    } else if i <= u + |encoded| {
      assert x[i] == encoded[i - u - 1] && x[i] in encoded;
    } else {
      assert x[i] == '@';
    }
  }

  lemma NoSchemeBeforeHost(user: string, encoded: string, b: string)
    requires ':' !in user && '/' !in encoded && ':' !in encoded
    ensures Find(BeforeHost(user, encoded) + b, "://") ==
      match Find(b, "://") case None => None case Some(e) => Some(|BeforeHost(user, encoded)| + e)
  {
    var x := BeforeHost(user, encoded);
    forall i | 0 <= i < |x|
      ensures !("://" <= (x + b)[i..])
    {
      var s := (x + b)[i..];
      NoSlashAfterColon(user, encoded, b, i);
      assert s[0] == x[i] && (|s| > 1 ==> s[1] == (x + b)[i + 1]);
    }
    FindSkips(x, b, "://");
  }

  // What is shown of the host and what follows it.
  function ShownHost(b: string): string {
    match Find(b, "://")
    case None => b
    case Some(e) =>
      FindSound(b, "://");
      var (userinfo, tail) := SplitFirst(b[e + 3..], '@');
      if tail == "" then b else b[..e + 3] + SplitFirst(userinfo, ':').0 + ":***" + tail
  }

  lemma JdbcIsShown(user: string, encoded: string, b: string)
    requires ':' !in user && '/' !in encoded && ':' !in encoded
    ensures RedactPassword("jdbc:" + (BeforeHost(user, encoded) + b)) == "jdbc:" + (BeforeHost(user, encoded) + ShownHost(b))
  {
    var x := BeforeHost(user, encoded);
    var dsn := "jdbc:" + (x + b);
    assert "jdbc:" <= dsn && dsn[5..] == x + b;
    NoSchemeBeforeHost(user, encoded, b);
    match Find(b, "://")
    case None =>
    case Some(e) =>
      FindSound(b, "://");
      assert (x + b)[|x| + e + 3..] == b[e + 3..];
      assert (x + b)[..|x| + e + 3] == x + b[..e + 3];
      var (userinfo, tail) := SplitFirst(b[e + 3..], '@');
      Regroup4("jdbc:", x, b[..e + 3], SplitFirst(userinfo, ':').0, tail);
  }

  lemma Regroup4(prefix: string, x: string, left: string, user: string, tail: string)
    ensures prefix + (x + left) + user + ":***" + tail == prefix + (x + (left + user + ":***" + tail))
  {
  }

  lemma JdbcSplice(user: string, encoded: string, host: string, rest: string)
    ensures "jdbc://" + (user + ":" + encoded + "@" + host) + rest == "jdbc:" + (BeforeHost(user, encoded) + (host + rest))
  {
    assert "jdbc://" == "jdbc:" + "//";
    assert (user + ":" + encoded + "@" + host) + rest == (user + ":" + encoded + "@") + (host + rest);
    assert "//" + (user + ":" + encoded + "@") == BeforeHost(user, encoded);
  }

  // The text of the log line for a spliced URL, whatever the scheme.
  function Shown(p: Parts, encoded: string): string {
    if "jdbc://" <= p.scheme then "jdbc:" + (BeforeHost(p.user, encoded) + ShownHost(p.host + p.rest))
    else
      var (shown, hidden) := SplitFirst(p.user, '@');
      p.scheme + (shown + ":***" + if hidden != "" then hidden + (":" + encoded + AtHost(p)) else AtHost(p))
  }

  // What the log shows of a spliced URL. With the scheme `jdbc://` that is the whole password;
  // else the user up to its first `@`, and everything from the first `@` after the scheme on.
  lemma RedactSpliced(p: Parts, encoded: string)
    requires WellFormed(p) && '@' !in encoded && '/' !in encoded && ':' !in encoded
    ensures RedactPassword(WithPassword(p, encoded)) == Shown(p, encoded)
  {
    if "jdbc://" <= p.scheme {
      JdbcScheme(p.scheme);
      JdbcSplice(p.user, encoded, p.host, p.rest);
      JdbcIsShown(p.user, encoded, p.host + p.rest);
    } else {
      RedactOrdinary(p, encoded);
    }
  }

  lemma JdbcEndsScheme()
    ensures EndsScheme("jdbc://")
  {
    var x, s := "jdbc", "jdbc" + "://";
    forall i | 0 <= i < |x|
      ensures !("://" <= s[i..])
    {
      assert s[i..][0] == x[i] != ':';
    }
    FindSkips(x, "://", "://");
    assert s == "jdbc://";
  }

  lemma JdbcScheme(scheme: string)
    requires EndsScheme(scheme) && "jdbc://" <= scheme
    ensures scheme == "jdbc://"
  {
    JdbcEndsScheme();
    FindStable("jdbc://", scheme, "://");
  }

  // The log line hides the password exactly when the user contains no `@` and the scheme is
  // not `jdbc://` itself.
  lemma RedactHidesPassword(url: string)
    requires Parse(url).Some?
    ensures '@' !in Parse(url).value.user && !("jdbc://" <= Parse(url).value.scheme)
       <==> forall p, q :: RedactPassword(SplicePassword(url, p)) == RedactPassword(SplicePassword(url, q))
  {
    var parts := Parse(url).value;
    if "jdbc://" <= parts.scheme || '@' in parts.user {
      SpliceShown(url, "");
      SpliceShown(url, "a");
      EncodedLengths();
      assert |Shown(parts, Encoded("a"))| == |Shown(parts, Encoded(""))| + 1;
    } else {
      forall p, q
        ensures RedactPassword(SplicePassword(url, p)) == RedactPassword(SplicePassword(url, q))
      {
        SpliceShown(url, p);
        SpliceShown(url, q);
      }
    }
  }

  lemma EncodedLengths()
    ensures |Encoded("")| == 0 && |Encoded("a")| == 1
  {
    EncodeOne('a');
    assert Octets('a')[1..] == [];
  }

  lemma SpliceShown(url: string, password: string)
    requires Parse(url).Some?
    ensures RedactPassword(SplicePassword(url, password)) == Shown(Parse(url).value, Encoded(password))
  {
    SpliceIs(url, password);
    PercentAlphabet(Encode(password));
    RedactSpliced(Parse(url).value, Encoded(password));
  }
}
