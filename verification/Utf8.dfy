/**
 UTF-8 (RFC 3629): a Dafny `char` is a Unicode scalar value, so a `string` is what a Rust
 string means and `Encode` gives its bytes.
 */
module Utf8 {

  type byte = b: int | 0 <= b < 256

  // Section 3: the octets of one character.
  function Octets(c: char): (bs: seq<byte>)
    ensures 1 <= |bs| <= 4
  {
    var n := c as int;
    if n < 0x80 then [n]
    else if n < 0x800 then [0xC0 + n / 64, 0x80 + n % 64]
    else if n < 0x1_0000 then [0xE0 + n / 4096, 0x80 + n / 64 % 64, 0x80 + n % 64]
    else [0xF0 + n / 262144, 0x80 + n / 4096 % 64, 0x80 + n / 64 % 64, 0x80 + n % 64]
  }

  function Encode(s: string): seq<byte> {
    if s == "" then [] else Octets(s[0]) + Encode(s[1..])
  }

  // `str::len`.
  function ByteLen(s: string): nat {
    |Encode(s)|
  }

  lemma {:induction false} EncodeConcat(a: string, b: string)
    ensures Encode(a + b) == Encode(a) + Encode(b)
  {
    if a == "" {
      assert a + b == b;
    } else {
      assert (a + b)[1..] == a[1..] + b;
      EncodeConcat(a[1..], b);
    }
  }

  lemma EncodeOne(c: char)
    ensures Encode([c]) == Octets(c)
  {
    assert [c][1..] == "";
  }

  // A prefix and the rest.
  lemma EncodeSplit(s: string, k: nat)
    requires k <= |s|
    ensures Encode(s) == Encode(s[..k]) + Encode(s[k..])
  {
    assert s == s[..k] + s[k..];
    EncodeConcat(s[..k], s[k..]);
  }

  predicate IsContinuation(b: byte) {
    0x80 <= b < 0xC0
  }

  // `str::is_char_boundary`.
  predicate IsCharBoundary(bs: seq<byte>, i: nat) {
    i == 0 || i == |bs| || (i < |bs| && !IsContinuation(bs[i]))
  }

  lemma OctetsLead(c: char)
    ensures !IsContinuation(Octets(c)[0])
    ensures forall i :: 1 <= i < |Octets(c)| ==> IsContinuation(Octets(c)[i])
  {
  }

  // Past the first character of a text, a boundary is one of the rest.
  lemma BoundaryPastHead(head: seq<byte>, tail: seq<byte>, i: nat)
    requires head != [] && forall j :: 1 <= j < |head| ==> IsContinuation(head[j])
    requires tail == [] || !IsContinuation(tail[0])
    requires 0 < i <= |head + tail| && IsCharBoundary(head + tail, i)
    ensures i >= |head| && IsCharBoundary(tail, i - |head|)
    ensures (head + tail)[..i] == head + tail[..i - |head|] && (head + tail)[i..] == tail[i - |head|..]
  {
    assert forall j :: 0 <= j < |head| ==> (head + tail)[j] == head[j];
    assert forall j :: |head| <= j < |head + tail| ==> (head + tail)[j] == tail[j - |head|];
  }

  // The byte boundaries of a string are exactly the ends of its prefixes.
  lemma {:induction false} BoundaryEndsPrefix(s: string, i: nat) returns (k: nat)
    requires i <= ByteLen(s) && IsCharBoundary(Encode(s), i)
    ensures k <= |s| && Encode(s[..k]) == Encode(s)[..i] && Encode(s[k..]) == Encode(s)[i..]
  {
    if i == 0 {
      k := 0;
      assert s[..0] == "" && s[0..] == s;
    } else {
      var head := Octets(s[0]);
      OctetsLead(s[0]);
      FirstIsLead(s[1..]);
      BoundaryPastHead(head, Encode(s[1..]), i);
      var rest := BoundaryEndsPrefix(s[1..], i - |head|);
      k := rest + 1;
      assert s[..k][0] == s[0] && s[..k][1..] == s[1..][..rest] && s[k..] == s[1..][rest..];
    }
  }

  lemma FirstIsLead(s: string)
    ensures s != "" ==> !IsContinuation(Encode(s)[0])
  {
    if s != "" {
      OctetsLead(s[0]);
    }
  }

  lemma PrefixEndsAtBoundary(s: string, k: nat)
    requires k <= |s|
    ensures ByteLen(s[..k]) <= ByteLen(s) && IsCharBoundary(Encode(s), ByteLen(s[..k]))
  {
    EncodeSplit(s, k);
    FirstIsLead(s[k..]);
  }

  // A boundary is never more than three bytes below, and the next no more than four bytes on.
  lemma {:induction false} BoundaryNear(s: string, i: nat) returns (b: nat)
    requires i < ByteLen(s)
    ensures b <= i <= b + 3 && IsCharBoundary(Encode(s), b)
    ensures exists e :: i < e <= b + 4 && e <= ByteLen(s) && IsCharBoundary(Encode(s), e)
  {
    var head := Octets(s[0]);
    if i < |head| {
      b := 0;
      PrefixEndsAtBoundary(s, 1);
      assert s[..1] == [s[0]];
      EncodeOne(s[0]);
      assert IsCharBoundary(Encode(s), |head|);
    } else {
      var b0 := BoundaryNear(s[1..], i - |head|);
      b := b0 + |head|;
      FirstIsLead(s[1..]);
      assert Encode(s)[b] == Encode(s[1..])[b0];
      var e0 :| i - |head| < e0 <= b0 + 4 && e0 <= ByteLen(s[1..]) && IsCharBoundary(Encode(s[1..]), e0);
      assert e0 < ByteLen(s[1..]) ==> Encode(s)[e0 + |head|] == Encode(s[1..])[e0];
      assert IsCharBoundary(Encode(s), e0 + |head|);
    }
  }

  lemma EncodeGrows(s: string, j: nat, k: nat)
    requires j <= k <= |s|
    ensures ByteLen(s[..j]) + (k - j) <= ByteLen(s[..k])
    ensures Encode(s[..j]) <= Encode(s[..k])
  {
    EncodeSplit(s[..k], j);
    assert s[..k][..j] == s[..j];
    LongAsString(s[..k][j..]);
  }

  lemma {:induction false} LongAsString(s: string)
    ensures |s| <= ByteLen(s)
  {
    if s != "" {
      LongAsString(s[1..]);
    }
  }

  /******* Different strings have different bytes *******/

  lemma {:induction false} EncodeInjective(a: string, b: string)
    requires Encode(a) == Encode(b)
    ensures a == b
  {
    if a != "" && b != "" {
      FirstCharIs(a, b);
      EncodeInjective(a[1..], b[1..]);
    }
  }

  lemma FirstCharIs(a: string, b: string)
    requires a != "" && b != "" && Encode(a) == Encode(b)
    ensures a[0] == b[0] && Encode(a[1..]) == Encode(b[1..])
  {
    var x, y := Octets(a[0]), Octets(b[0]);
    assert Encode(a)[0] == x[0] == y[0];
    assert |x| == |y|;
    assert x == Encode(a)[..|x|] == Encode(b)[..|y|] == y;
    OctetsInjective(a[0], b[0]);
    assert Encode(a)[|x|..] == Encode(a[1..]) && Encode(b)[|y|..] == Encode(b[1..]);
  }

  // The scalar value that octets stand for.
  function ScalarOf(bs: seq<int>): int
    requires 1 <= |bs| <= 4
  {
    if |bs| == 1 then bs[0]
    else if |bs| == 2 then (bs[0] - 0xC0) * 64 + (bs[1] - 0x80)
    else if |bs| == 3 then (bs[0] - 0xE0) * 4096 + (bs[1] - 0x80) * 64 + (bs[2] - 0x80)
    else (bs[0] - 0xF0) * 262144 + (bs[1] - 0x80) * 4096 + (bs[2] - 0x80) * 64 + (bs[3] - 0x80)
  }

  lemma Base64(n: nat)
    ensures n / 4096 == n / 64 / 64 && n / 262144 == n / 4096 / 64
    ensures n / 64 == n / 4096 * 64 + n / 64 % 64 && n / 4096 == n / 262144 * 64 + n / 4096 % 64
  {
  }

  lemma OctetsGiveScalar(c: char)
    ensures ScalarOf(Octets(c)) == c as int
  {
    Base64(c as int);
  }

  lemma OctetsInjective(c: char, d: char)
    requires Octets(c) == Octets(d)
    ensures c == d
  {
    OctetsGiveScalar(c);
    OctetsGiveScalar(d);
  }
}
