// Percent-encoding as an address carries it (`migkit/addresses.py`, section
// 2.1 of RFC 3986). Text is the bytes it is written in.
module Percent {
  import opened LastEvent
  import opened Lsn

  predicate Bytes(s: string) { forall c :: c in s ==> c as int < 256 }

  predicate Unreserved(c: char) {
    'a' <= c <= 'z' || 'A' <= c <= 'Z' || '0' <= c <= '9' || c in "_.-~"
  }

  function Encoded(c: char): (s: string)
    requires c as int < 256
    ensures |s| == 3
  {
    ['%', Digit(c as int / 16), Digit(c as int % 16)]
  }

  function QuoteOne(c: char, safe: string): string
    requires c as int < 256
  {
    if Unreserved(c) || c in safe then [c] else Encoded(c)
  }

  function Quote(s: string, safe: string): string
    requires Bytes(s)
  {
    if s == [] then []
    else
      assert s[0] in s && forall c :: c in s[1..] ==> c in s;
      QuoteOne(s[0], safe) + Quote(s[1..], safe)
  }

  // A percent sign no two hexadecimal digits follow stays as it is.
  function Unquote(s: string): string {
    if s == [] then []
    else if s[0] == '%' && |s| >= 3 && ValueOf(s[1]).Some? && ValueOf(s[2]).Some? then
      [(ValueOf(s[1]).value * 16 + ValueOf(s[2]).value) as char] + Unquote(s[3..])
    else [s[0]] + Unquote(s[1..])
  }

  lemma {:induction false} OneReadsBack(c: char, safe: string, rest: string)
    requires c as int < 256 && '%' !in safe
    ensures Unquote(QuoteOne(c, safe) + rest) == [c] + Unquote(rest)
  {
    var s := QuoteOne(c, safe) + rest;
    if Unreserved(c) || c in safe {
      assert s[1..] == rest;
    } else {
      DigitReadsBack(c as int / 16);
      DigitReadsBack(c as int % 16);
      assert s[3..] == rest && s[0] == '%' && s[1] == Digit(c as int / 16) && s[2] == Digit(c as int % 16);
    }
  }

  // What was quoted reads back, whatever follows it.
  lemma {:induction false} QuoteReadsBack(s: string, safe: string, rest: string)
    requires Bytes(s) && '%' !in safe
    ensures Unquote(Quote(s, safe) + rest) == s + Unquote(rest)
  {
    if s == [] {
      assert Quote(s, safe) + rest == rest;
    } else {
      assert s[0] in s && forall c :: c in s[1..] ==> c in s;
      var first, tail := QuoteOne(s[0], safe), Quote(s[1..], safe);
      QuoteReadsBack(s[1..], safe, rest);
      OneReadsBack(s[0], safe, tail + rest);
      Joined(first, tail, rest);
      Joined([s[0]], s[1..], Unquote(rest));
      assert s == [s[0]] + s[1..];
    }
  }

  lemma {:induction false} Joined(a: string, b: string, c: string)
    ensures a + b + c == a + (b + c)
  {
  }

  predicate Mild(c: char, safe: string) { Unreserved(c) || c in safe || c == '%' }

  lemma {:induction false} EncodedIsMild(c: char, safe: string)
    requires c as int < 256
    ensures forall x :: x in Encoded(c) ==> Mild(x, safe)
  {
  }

  // Nothing reserved is left but what is safe.
  lemma {:induction false} QuoteIsMild(s: string, safe: string)
    requires Bytes(s)
    ensures forall x :: x in Quote(s, safe) ==> Mild(x, safe)
    ensures s != [] ==> Quote(s, safe) != []
  {
    if s != [] {
      assert s[0] in s && forall c :: c in s[1..] ==> c in s;
      QuoteIsMild(s[1..], safe);
      EncodedIsMild(s[0], safe);
    }
  }

  // Text of safe characters alone is left as it is.
  lemma {:induction false} SafeStays(s: string, rest: string, safe: string)
    requires Bytes(s) && Bytes(s + rest) && forall c :: c in s ==> Unreserved(c) || c in safe
    ensures Bytes(rest) && Quote(s + rest, safe) == s + Quote(rest, safe)
  {
    assert forall c :: c in rest ==> c in s + rest;
    if s == [] {
      assert s + rest == rest;
    } else {
      assert s[0] in s && forall c :: c in s[1..] ==> c in s;
      assert (s + rest)[1..] == s[1..] + rest;
      SafeStays(s[1..], rest, safe);
      assert s == [s[0]] + s[1..];
    }
  }

  lemma {:induction false} NothingToUnquote(s: string)
    requires '%' !in s
    ensures Unquote(s) == s
  {
    if s != [] {
      assert s[0] in s && forall c :: c in s[1..] ==> c in s;
      NothingToUnquote(s[1..]);
      assert s == [s[0]] + s[1..];
    }
  }
}
