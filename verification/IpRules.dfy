/** Which addresses a job may talk to (src/security.rs, src/executor/http.rs). */
module IpRules {
  import opened Wrappers

  type octet = x: int | 0 <= x < 0x100
  type segment = x: int | 0 <= x < 0x1_0000

  datatype IpAddr =
    | V4(a: octet, b: octet, c: octet, d: octet)
    | V6(s0: segment, s1: segment, s2: segment, s3: segment, s4: segment, s5: segment, s6: segment, s7: segment)

  /******* The classes of the standard library *******/

  // `x & 0xfe00`, `x & 0xff00` and `x & 0xffc0`: x without its low bits.
  function Top7(x: segment): int { x - x % 0x200 }
  function Top8(x: segment): int { x - x % 0x100 }
  function Top10(x: segment): int { x - x % 0x40 }

  predicate IsLoopback(ip: IpAddr) {
    if ip.V4? then ip.a == 127 else ip == V6(0, 0, 0, 0, 0, 0, 0, 1)
  }

  predicate IsUnspecified(ip: IpAddr) {
    if ip.V4? then ip == V4(0, 0, 0, 0) else ip == V6(0, 0, 0, 0, 0, 0, 0, 0)
  }

  predicate IsMulticast(ip: IpAddr) {
    if ip.V4? then 224 <= ip.a <= 239 else Top8(ip.s0) == 0xff00
  }

  predicate IsLinkLocal4(ip: IpAddr)
    requires ip.V4?
  {
    ip.a == 169 && ip.b == 254
  }

  predicate IsPrivate4(ip: IpAddr)
    requires ip.V4?
  {
    ip.a == 10 || (ip.a == 172 && 16 <= ip.b <= 31) || (ip.a == 192 && ip.b == 168)
  }

  predicate IsBroadcast4(ip: IpAddr)
    requires ip.V4?
  {
    ip == V4(255, 255, 255, 255)
  }

  // `Ipv6Addr::to_ipv4_mapped`.
  function ToIpv4Mapped(ip: IpAddr): (r: Option<IpAddr>)
    requires ip.V6?
    ensures r.Some? ==> r.value.V4?
  {
    if ip == V6(0, 0, 0, 0, 0, 0xffff, ip.s6, ip.s7) then
      Some(V4(ip.s6 / 0x100, ip.s6 % 0x100, ip.s7 / 0x100, ip.s7 % 0x100))
    else None
  }

  /******* The two verdicts *******/

  predicate IsPrivateOrLocal4(ip: IpAddr)
    requires ip.V4?
  {
    || IsLoopback(ip) || IsLinkLocal4(ip) || IsPrivate4(ip) || IsUnspecified(ip)
    || (ip.a == 100 && 64 <= ip.b <= 127)
    || IsMulticast(ip) || IsBroadcast4(ip)
  }

  predicate IsPrivateOrLocal(ip: IpAddr) {
    if ip.V4? then IsPrivateOrLocal4(ip)
    else if IsLoopback(ip) || IsUnspecified(ip) || IsMulticast(ip) then true
    else
      match ToIpv4Mapped(ip)
      case Some(v4) => IsPrivateOrLocal4(v4)
      case None => Top10(ip.s0) == 0xfe80 || Top7(ip.s0) == 0xfc00
  }

  predicate IsAlwaysBlocked4(ip: IpAddr)
    requires ip.V4?
  {
    IsLinkLocal4(ip) || IsUnspecified(ip) || IsMulticast(ip) || IsBroadcast4(ip)
  }

  predicate IsAlwaysBlocked(ip: IpAddr) {
    if ip.V4? then IsAlwaysBlocked4(ip)
    else
      match ToIpv4Mapped(ip)
      case Some(v4) => IsAlwaysBlocked4(v4)
      case None =>
        || IsUnspecified(ip) || IsMulticast(ip) || Top10(ip.s0) == 0xfe80
        || ip == V6(0xfd00, 0x0ec2, 0, 0, 0, 0, 0, 0x0254)
  }

  predicate SsrfRefuses(ip: IpAddr, allowlisted: bool) {
    if allowlisted then IsAlwaysBlocked(ip) else IsPrivateOrLocal(ip)
  }

  /******* Networks, as an independent reading *******/

  // A network by its first and its last address: a prefix fixes the leading parts, leaves one
  // part a range and the rest free.
  datatype Net = Net(first: IpAddr, last: IpAddr)

  predicate InNet(ip: IpAddr, net: Net) {
    var f, l := net.first, net.last;
    if ip.V4? then
      && f.V4? && l.V4?
      && f.a <= ip.a <= l.a && f.b <= ip.b <= l.b && f.c <= ip.c <= l.c && f.d <= ip.d <= l.d
    else
      && f.V6? && l.V6?
      && f.s0 <= ip.s0 <= l.s0 && f.s1 <= ip.s1 <= l.s1 && f.s2 <= ip.s2 <= l.s2 && f.s3 <= ip.s3 <= l.s3
      && f.s4 <= ip.s4 <= l.s4 && f.s5 <= ip.s5 <= l.s5 && f.s6 <= ip.s6 <= l.s6 && f.s7 <= ip.s7 <= l.s7
  }

  ghost predicate InAny(ip: IpAddr, nets: seq<Net>) {
    exists net :: net in nets && InNet(ip, net)
  }

  function Single(ip: IpAddr): Net { Net(ip, ip) }

  // The addresses whose first segment is in a range.
  function Leading6(lo: segment, hi: segment): Net {
    Net(V6(lo, 0, 0, 0, 0, 0, 0, 0), V6(hi, 0xffff, 0xffff, 0xffff, 0xffff, 0xffff, 0xffff, 0xffff))
  }

  const LOOPBACK4 := Net(V4(127, 0, 0, 0), V4(127, 255, 255, 255))
  const TEN := Net(V4(10, 0, 0, 0), V4(10, 255, 255, 255))
  const ONE_SEVEN_TWO := Net(V4(172, 16, 0, 0), V4(172, 31, 255, 255))
  const ONE_NINE_TWO := Net(V4(192, 168, 0, 0), V4(192, 168, 255, 255))
  const CARRIER_GRADE := Net(V4(100, 64, 0, 0), V4(100, 127, 255, 255))
  const LINK_LOCAL4 := Net(V4(169, 254, 0, 0), V4(169, 254, 255, 255))
  const MULTICAST4 := Net(V4(224, 0, 0, 0), V4(239, 255, 255, 255))
  const UNSPECIFIED4 := Single(V4(0, 0, 0, 0))
  const BROADCAST4 := Single(V4(255, 255, 255, 255))

  const UNIQUE_LOCAL := Leading6(0xfc00, 0xfdff)
  const LINK_LOCAL6 := Leading6(0xfe80, 0xfebf)
  const MULTICAST6 := Leading6(0xff00, 0xffff)
  const LOOPBACK6 := Single(V6(0, 0, 0, 0, 0, 0, 0, 1))
  const UNSPECIFIED6 := Single(V6(0, 0, 0, 0, 0, 0, 0, 0))
  const METADATA6 := Single(V6(0xfd00, 0x0ec2, 0, 0, 0, 0, 0, 0x0254))

  // What an allowlisted host may use although it is private, and what nobody may.
  const OPENED := [LOOPBACK4, TEN, ONE_SEVEN_TWO, ONE_NINE_TWO, CARRIER_GRADE, LOOPBACK6, UNIQUE_LOCAL]
  const CLOSED := [LINK_LOCAL4, MULTICAST4, UNSPECIFIED4, BROADCAST4, LINK_LOCAL6, MULTICAST6, UNSPECIFIED6, METADATA6]

  // A mapped IPv6 address stands for its IPv4 address.
  function Unmapped(ip: IpAddr): IpAddr {
    if ip.V6? && ToIpv4Mapped(ip).Some? then ToIpv4Mapped(ip).value else ip
  }

  lemma ClosedNets(ip: IpAddr)
    ensures InAny(ip, CLOSED) <==>
      || InNet(ip, LINK_LOCAL4) || InNet(ip, MULTICAST4) || InNet(ip, UNSPECIFIED4) || InNet(ip, BROADCAST4)
      || InNet(ip, LINK_LOCAL6) || InNet(ip, MULTICAST6) || InNet(ip, UNSPECIFIED6) || InNet(ip, METADATA6)
  {
    assert LINK_LOCAL4 in CLOSED && MULTICAST4 in CLOSED && UNSPECIFIED4 in CLOSED && BROADCAST4 in CLOSED;
    assert LINK_LOCAL6 in CLOSED && MULTICAST6 in CLOSED && UNSPECIFIED6 in CLOSED && METADATA6 in CLOSED;
  }

  lemma OpenedNets(ip: IpAddr)
    ensures InAny(ip, OPENED) <==>
      || InNet(ip, LOOPBACK4) || InNet(ip, TEN) || InNet(ip, ONE_SEVEN_TWO) || InNet(ip, ONE_NINE_TWO)
      || InNet(ip, CARRIER_GRADE) || InNet(ip, LOOPBACK6) || InNet(ip, UNIQUE_LOCAL)
  {
    assert LOOPBACK4 in OPENED && TEN in OPENED && ONE_SEVEN_TWO in OPENED && ONE_NINE_TWO in OPENED;
    assert CARRIER_GRADE in OPENED && LOOPBACK6 in OPENED && UNIQUE_LOCAL in OPENED;
  }

  lemma Nets4(ip: IpAddr)
    requires ip.V4?
    ensures InAny(ip, CLOSED) <==> IsAlwaysBlocked4(ip)
    ensures InAny(ip, OPENED) <==> IsLoopback(ip) || IsPrivate4(ip) || (ip.a == 100 && 64 <= ip.b <= 127)
  {
    ClosedNets(ip);
    OpenedNets(ip);
  }

  lemma InLeading6(ip: IpAddr, lo: segment, hi: segment)
    requires ip.V6?
    ensures InNet(ip, Leading6(lo, hi)) <==> lo <= ip.s0 <= hi
  {
  }

  lemma TopsAreRanges(x: segment)
    ensures Top10(x) == 0xfe80 <==> 0xfe80 <= x <= 0xfebf
    ensures Top7(x) == 0xfc00 <==> 0xfc00 <= x <= 0xfdff
    ensures Top8(x) == 0xff00 <==> 0xff00 <= x
  {
  }

  lemma Nets6(ip: IpAddr)
    requires ip.V6?
    ensures InAny(ip, CLOSED) <==>
      IsUnspecified(ip) || IsMulticast(ip) || Top10(ip.s0) == 0xfe80 || ip == METADATA6.first
    ensures InAny(ip, OPENED) <==> IsLoopback(ip) || Top7(ip.s0) == 0xfc00
  {
    ClosedNets(ip);
    OpenedNets(ip);
    TopsAreRanges(ip.s0);
    InLeading6(ip, 0xfe80, 0xfebf);
    InLeading6(ip, 0xff00, 0xffff);
    InLeading6(ip, 0xfc00, 0xfdff);
  }

  lemma UnmappedVerdicts6(ip: IpAddr)
    requires ip.V6? && ToIpv4Mapped(ip) == None
    ensures IsAlwaysBlocked(ip) <==> InAny(ip, CLOSED)
    ensures IsPrivateOrLocal(ip) <==> InAny(ip, OPENED) || InAny(ip, CLOSED)
  {
    Nets6(ip);
    TopsAreRanges(ip.s0);
  }

  lemma MappedShape(ip: IpAddr)
    requires ip.V6? && ToIpv4Mapped(ip).Some?
    ensures ip.s0 == 0 && ip.s5 == 0xffff
  {
  }

  lemma ShapeIsPlain(ip: IpAddr)
    requires ip.V6? && ip.s0 == 0 && ip.s5 == 0xffff
    ensures !IsMulticast(ip) && !IsLoopback(ip) && !IsUnspecified(ip)
  {
  }

  lemma MappedIsPrivateLike(ip: IpAddr, v4: IpAddr)
    requires ip.V6? && ToIpv4Mapped(ip) == Some(v4)
    ensures v4.V4? && IsPrivateOrLocal(ip) == IsPrivateOrLocal4(v4)
  {
    MappedShape(ip);
    ShapeIsPlain(ip);
  }

  lemma MappedIsBlockedLike(ip: IpAddr, v4: IpAddr)
    requires ip.V6? && ToIpv4Mapped(ip) == Some(v4)
    ensures v4.V4? && IsAlwaysBlocked(ip) == IsAlwaysBlocked4(v4)
  {
  }

  lemma MappedVerdicts6(ip: IpAddr, v4: IpAddr)
    requires ip.V6? && ToIpv4Mapped(ip) == Some(v4)
    ensures v4.V4? && IsPrivateOrLocal(ip) == IsPrivateOrLocal4(v4) && IsAlwaysBlocked(ip) == IsAlwaysBlocked4(v4)
  {
    MappedIsPrivateLike(ip, v4);
    MappedIsBlockedLike(ip, v4);
  }

  // Every refused address lies in one of the networks above, a mapped address standing for
  // the IPv4 address in it, and every address of those networks is refused.
  lemma VerdictsAreNetworks(ip: IpAddr)
    ensures IsAlwaysBlocked(ip) <==> InAny(Unmapped(ip), CLOSED)
    ensures IsPrivateOrLocal(ip) <==> InAny(Unmapped(ip), OPENED) || InAny(Unmapped(ip), CLOSED)
  {
    var a := Unmapped(ip);
    if a.V4? {
      Nets4(a);
      if ip.V6? {
        MappedVerdicts6(ip, a);
      }
    } else {
      UnmappedVerdicts6(ip);
    }
  }

  // Only the metadata address is in an opened network and yet closed.
  lemma OpenedAndClosed(ip: IpAddr)
    ensures InAny(ip, OPENED) && InAny(ip, CLOSED) <==> ip == METADATA6.first
  {
    if ip.V4? {
      Nets4(ip);
    } else {
      Nets6(ip);
      TopsAreRanges(ip.s0);
    }
  }

  // Listing a host only removes refusals, and what it opens is loopback, RFC 1918,
  // carrier-grade NAT and unique local addresses, without the metadata address.
  lemma ListingOpens(ip: IpAddr)
    ensures SsrfRefuses(ip, true) ==> SsrfRefuses(ip, false)
    ensures SsrfRefuses(ip, false) && !SsrfRefuses(ip, true)
       <==> InAny(Unmapped(ip), OPENED) && Unmapped(ip) != METADATA6.first
  {
    VerdictsAreNetworks(ip);
    OpenedAndClosed(Unmapped(ip));
  }

  lemma Halves(hi: octet, lo: octet)
    ensures hi * 0x100 + lo < 0x1_0000 && (hi * 0x100 + lo) / 0x100 == hi && (hi * 0x100 + lo) % 0x100 == lo
  {
  }

  // An IPv4-mapped address gets the verdicts of its IPv4 address.
  lemma MappedIsJudgedAsItsIpv4(v4: IpAddr)
    requires v4.V4?
    ensures var ip := V6(0, 0, 0, 0, 0, 0xffff, v4.a * 0x100 + v4.b, v4.c * 0x100 + v4.d);
      IsPrivateOrLocal(ip) == IsPrivateOrLocal(v4) && IsAlwaysBlocked(ip) == IsAlwaysBlocked(v4)
  {
    Halves(v4.a, v4.b);
    Halves(v4.c, v4.d);
    var ip := V6(0, 0, 0, 0, 0, 0xffff, v4.a * 0x100 + v4.b, v4.c * 0x100 + v4.d);
    assert ToIpv4Mapped(ip) == Some(v4);
    MappedVerdicts6(ip, v4);
  }

  // The comment on `is_private_or_local` lists the documentation ranges among what is
  // refused; the code refuses none of their addresses.
  lemma DocumentationIsNotRefused(ip: IpAddr)
    requires ip.V4?
    requires (ip.a == 192 && ip.b == 0 && ip.c == 2) || (ip.a == 198 && ip.b == 51 && ip.c == 100) || (ip.a == 203 && ip.b == 0 && ip.c == 113)
    ensures !SsrfRefuses(ip, false) && !SsrfRefuses(ip, true)
  {
  }

  /******* From load to connection *******/

  datatype Host = Domain(name: string) | Literal(ip: IpAddr)

  // `validate_http_url` on the parsed host.
  predicate LoadAdmits(host: Host, blockPrivate: bool) {
    blockPrivate && host.Literal? ==> !IsPrivateOrLocal(host.ip)
  }

  // The addresses a fire may connect to. An IPv6 literal, in its brackets, is looked up like
  // a name.
  function Targets(host: Host, resolved: seq<IpAddr>): seq<IpAddr> {
    if host.Literal? && host.ip.V4? then [host.ip] else resolved
  }

  predicate PreFlightPasses(host: Host, resolved: seq<IpAddr>, allowlisted: bool) {
    (host.Literal? && host.ip.V4?) || forall ip :: ip in resolved ==> !SsrfRefuses(ip, allowlisted)
  }

  // What passes load and pre-flight is never always blocked, and is private only for a listed
  // host.
  lemma AdmittedTarget(host: Host, resolved: seq<IpAddr>, listed: bool, ip: IpAddr)
    requires LoadAdmits(host, true) && PreFlightPasses(host, resolved, listed) && ip in Targets(host, resolved)
    ensures !IsAlwaysBlocked(ip) && (!listed ==> !IsPrivateOrLocal(ip))
  {
    NotRefused(ip, host.Literal? && host.ip.V4? && host.ip == ip, listed);
  }

  lemma NotRefused(ip: IpAddr, admitted: bool, listed: bool)
    requires if admitted then !IsPrivateOrLocal(ip) else !SsrfRefuses(ip, listed)
    ensures !IsAlwaysBlocked(ip) && (!listed ==> !IsPrivateOrLocal(ip))
  {
    ListingOpens(ip);
    assert SsrfRefuses(ip, true) == IsAlwaysBlocked(ip) && SsrfRefuses(ip, false) == IsPrivateOrLocal(ip);
  }

  // The pre-flight of a fire over the addresses the host resolves to; an IPv4 literal passes
  // unseen.
  method PreFlight(host: Host, resolved: seq<IpAddr>, allowlisted: bool) returns (r: Result<(), IpAddr>)
    ensures r.Ok? <==> PreFlightPasses(host, resolved, allowlisted)
    ensures r.Err? ==> exists i ::
      && 0 <= i < |resolved| && resolved[i] == r.error && SsrfRefuses(resolved[i], allowlisted)
      && forall j :: 0 <= j < i ==> !SsrfRefuses(resolved[j], allowlisted)
  {
    if host.Literal? && host.ip.V4? {
      return Ok(());
    }
    for i := 0 to |resolved|
      invariant forall j :: 0 <= j < i ==> !SsrfRefuses(resolved[j], allowlisted)
    {
      if SsrfRefuses(resolved[i], allowlisted) {
        return Err(resolved[i]);
      }
    }
    r := Ok(());
  }
}
