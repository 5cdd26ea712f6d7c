/** The hosts an operator lets onto private addresses (src/security.rs, src/config.rs, src/executor/http.rs). */
module Hosts {
  import opened Wrappers
  import opened Text
  import opened IpRules

  predicate IsHostChar(c: char) {
    'a' <= c <= 'z' || 'A' <= c <= 'Z' || '0' <= c <= '9' || c == '-' || c == '.' || c == '_'
  }

  // `isIp` stands for parsing as an IP address.
  function Normalized(entry: string, isIp: string -> bool): Option<string> {
    var host := AsciiLower(TrimDots(Trim(entry)));
    if host == "" || isIp(host) then None
    else if exists i :: 0 <= i < |host| && !IsHostChar(host[i]) then None
    else Some(host)
  }

  function EqIgnoreAsciiCase(a: string, b: string): bool {
    AsciiLower(a) == AsciiLower(b)
  }

  predicate IsAllowlisted(host: string, allowed: seq<string>) {
    exists i :: 0 <= i < |allowed| && EqIgnoreAsciiCase(allowed[i], TrimDots(host))
  }

  // The usable hosts and the raw entries that can never match, each in the order of the entries.
  function Usable(entries: seq<string>, isIp: string -> bool): seq<string> {
    if entries == [] then []
    else
      var last := Normalized(entries[|entries| - 1], isIp);
      Usable(entries[..|entries| - 1], isIp) + if last.Some? then [last.value] else []
  }

  function Useless(entries: seq<string>, isIp: string -> bool): seq<string> {
    if entries == [] then []
    else
      var last := entries[|entries| - 1];
      Useless(entries[..|entries| - 1], isIp) + if Normalized(last, isIp).None? then [last] else []
  }

  method SplitAllowedPrivateHosts(entries: seq<string>, isIp: string -> bool) returns (valid: seq<string>, invalid: seq<string>)
    ensures valid == Usable(entries, isIp) && invalid == Useless(entries, isIp)
    ensures |valid| + |invalid| == |entries|
  {
    valid, invalid := [], [];
    for i := 0 to |entries|
      invariant valid == Usable(entries[..i], isIp) && invalid == Useless(entries[..i], isIp)
      invariant |valid| + |invalid| == i
    {
      assert entries[..i + 1][..i] == entries[..i];
      match Normalized(entries[i], isIp) {
        case Some(host) => valid := valid + [host];
        case None => invalid := invalid + [entries[i]];
      }
    }
    assert entries[..|entries|] == entries;
  }

  /******* What listing a host means *******/

  lemma {:induction false} UsableAre(entries: seq<string>, isIp: string -> bool, host: string)
    ensures host in Usable(entries, isIp) <==> exists i :: 0 <= i < |entries| && Normalized(entries[i], isIp) == Some(host)
  {
    if entries != [] {
      var front := entries[..|entries| - 1];
      UsableAre(front, isIp, host);
      assert forall i :: 0 <= i < |front| ==> front[i] == entries[i];
    }
  }

  lemma LowerIsIdempotent(s: string)
    ensures AsciiLower(AsciiLower(s)) == AsciiLower(s)
  {
  }

  lemma NormalizedIsLower(entry: string, isIp: string -> bool)
    ensures Normalized(entry, isIp).Some? ==> AsciiLower(Normalized(entry, isIp).value) == Normalized(entry, isIp).value
  {
    LowerIsIdempotent(TrimDots(Trim(entry)));
  }

  // A host is let through exactly when some entry normalises to it, in lower case and without
  // trailing dots; so an IP literal is never let through.
  lemma AllowlistedIs(host: string, entries: seq<string>, isIp: string -> bool)
    ensures IsAllowlisted(host, Usable(entries, isIp)) <==>
      exists i :: 0 <= i < |entries| && Normalized(entries[i], isIp) == Some(AsciiLower(TrimDots(host)))
    ensures isIp(AsciiLower(TrimDots(host))) ==> !IsAllowlisted(host, Usable(entries, isIp))
  {
    var allowed, wanted := Usable(entries, isIp), AsciiLower(TrimDots(host));
    UsableAre(entries, isIp, wanted);
    forall i | 0 <= i < |allowed|
      ensures EqIgnoreAsciiCase(allowed[i], TrimDots(host)) <==> allowed[i] == wanted
    {
      UsableAre(entries, isIp, allowed[i]);
      var k :| 0 <= k < |entries| && Normalized(entries[k], isIp) == Some(allowed[i]);
      NormalizedIsLower(entries[k], isIp);
      LowerIsIdempotent(TrimDots(host));
    }
  }

  // A normalised host is a fixed point: listing it again gives the same host.
  lemma NormalizedIsStable(entry: string, isIp: string -> bool)
    requires Normalized(entry, isIp).Some?
    ensures Normalized(Normalized(entry, isIp).value, isIp) == Normalized(entry, isIp)
  {
    var host := Normalized(entry, isIp).value;
    NormalizedIsLower(entry, isIp);
    assert forall i :: 0 <= i < |host| ==> IsHostChar(host[i]) && !IsWhitespace(host[i]);
    assert TrimStart(host) == host && TrimEnd(host) == host;
    var trimmed := TrimDots(Trim(entry));
    assert host[|host| - 1] == ToAsciiLower(trimmed[|trimmed| - 1]) != '.';
    assert TrimDots(host) == host;
  }

  /******* From the configuration to the connection *******/

  // The text of a URL's host: an IPv6 literal stands in brackets.
  ghost predicate IsHostText(text: string, host: Host, isIp: string -> bool) {
    && (host.Literal? && host.ip.V6? ==> text != "" && text[0] == '[')
    && (host.Literal? && host.ip.V4? ==> isIp(AsciiLower(TrimDots(text))))
  }

  lemma {:induction false} DotsKeepFirst(s: string)
    ensures s != "" && s[0] != '.' ==> TrimDots(s) != "" && TrimDots(s)[0] == s[0]
  {
    if s != "" && s[|s| - 1] == '.' {
      DotsKeepFirst(s[..|s| - 1]);
    }
  }

  // No literal address is ever let through by the list: an IPv4 literal is refused as an
  // entry, and no entry holds a bracket.
  lemma LiteralIsNotListed(text: string, host: Host, entries: seq<string>, isIp: string -> bool)
    requires host.Literal? && IsHostText(text, host, isIp)
    ensures !IsAllowlisted(text, Usable(entries, isIp))
  {
    AllowlistedIs(text, entries, isIp);
    var wanted := AsciiLower(TrimDots(text));
    if host.ip.V6? {
      DotsKeepFirst(text);
      assert wanted[0] == '[' && !IsHostChar(wanted[0]);
      forall i | 0 <= i < |entries|
        ensures Normalized(entries[i], isIp) != Some(wanted)
      {
      }
    }
  }

  // A job that loads and whose fire passes talks to no address that is always blocked, and to
  // a private one only if its URL names a host, not an address, that some entry of the
  // configuration normalises to.
  lemma FiredTargets(
    text: string, host: Host, entries: seq<string>, isIp: string -> bool, resolved: seq<IpAddr>, ip: IpAddr)
    requires IsHostText(text, host, isIp) && LoadAdmits(host, true)
    requires PreFlightPasses(host, resolved, IsAllowlisted(text, Usable(entries, isIp)))
    requires ip in Targets(host, resolved)
    ensures !IsAlwaysBlocked(ip)
    ensures IsPrivateOrLocal(ip) ==>
      host.Domain? && exists i :: 0 <= i < |entries| && Normalized(entries[i], isIp) == Some(AsciiLower(TrimDots(text)))
  {
    var listed := IsAllowlisted(text, Usable(entries, isIp));
    AdmittedTarget(host, resolved, listed, ip);
    if host.Literal? {
      LiteralIsNotListed(text, host, entries, isIp);
    } else {
      AllowlistedIs(text, entries, isIp);
    }
  }
}
