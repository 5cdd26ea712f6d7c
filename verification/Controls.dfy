/** Control characters: what Unicode calls one, and what the escaping of src/security.rs looks for. */
module Controls {

  // The general category Cc, `char::is_control`: C0, DEL and C1.
  predicate IsCc(c: char) {
    c < ' ' || 0x7f as char <= c <= '\U{9F}'
  }

  // The guard of the code.
  predicate IsC0OrDel(c: char) {
    c < ' ' || c == 0x7f as char
  }

  // U+009B among them begins an ANSI control sequence on its own.
  predicate IsC1(c: char) {
    '\U{80}' <= c <= '\U{9F}'
  }

  lemma TwoKinds(c: char)
    ensures IsCc(c) <==> IsC0OrDel(c) || IsC1(c)
  {
  }

  // No control character but tab.
  ghost predicate IsPlain(s: string) {
    forall i :: 0 <= i < |s| ==> s[i] == '\t' || !IsCc(s[i])
  }

  // No control character but tab and C1.
  ghost predicate OnlyC1(s: string) {
    forall i :: 0 <= i < |s| ==> s[i] == '\t' || !IsC0OrDel(s[i])
  }

  // The C1 characters of a text, in order.
  function C1s(s: string): string {
    if s == "" then "" else (if IsC1(s[0]) then [s[0]] else "") + C1s(s[1..])
  }

  lemma {:induction false} C1sConcat(a: string, b: string)
    ensures C1s(a + b) == C1s(a) + C1s(b)
  {
    if a == "" {
      assert a + b == b;
    } else {
      assert (a + b)[0] == a[0] && (a + b)[1..] == a[1..] + b;
      C1sConcat(a[1..], b);
      var first := if IsC1(a[0]) then [a[0]] else "";
      assert first + (C1s(a[1..]) + C1s(b)) == first + C1s(a[1..]) + C1s(b);
    }
  }

  lemma {:induction false} NoC1s(s: string)
    ensures C1s(s) == "" <==> forall i :: 0 <= i < |s| ==> !IsC1(s[i])
  {
    if s != "" {
      NoC1s(s[1..]);
      assert forall i :: 0 < i < |s| ==> s[i] == s[1..][i - 1];
    }
  }

  // Text without C0 and DEL is plain exactly if it has no C1.
  lemma PlainIs(s: string)
    requires OnlyC1(s)
    ensures IsPlain(s) <==> C1s(s) == ""
  {
    NoC1s(s);
    forall i | 0 <= i < |s|
      ensures IsCc(s[i]) <==> IsC0OrDel(s[i]) || IsC1(s[i])
    {
      TwoKinds(s[i]);
    }
  }

  // Plain text adds nothing.
  lemma PlainAfter(a: string, b: string)
    requires OnlyC1(a) && IsPlain(b)
    ensures OnlyC1(a + b) && C1s(a + b) == C1s(a)
  {
    forall i | 0 <= i < |b|
      ensures !IsC1(b[i]) && (b[i] == '\t' || !IsC0OrDel(b[i]))
    {
      TwoKinds(b[i]);
    }
    NoC1s(b);
    C1sConcat(a, b);
  }

  lemma PlainPrefix(s: string, n: nat)
    requires IsPlain(s) && n <= |s|
    ensures IsPlain(s[..n])
  {
  }
}
