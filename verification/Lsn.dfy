// A position written as two hexadecimal halves and read back
// (`migkit/ack_lattice.py`).
module Lsn {
  import opened LastEvent
  import opened Text

  const HALF: int := 0x1_0000_0000

  function Digit(d: int): char
    requires 0 <= d < 16
  {
    if d < 10 then ('0' as int + d) as char else ('A' as int + d - 10) as char
  }

  function ValueOf(c: char): (v: Option<int>)
    ensures v.Some? ==> 0 <= v.value < 16
  {
    if '0' <= c <= '9' then Some(c as int - '0' as int)
    else if 'A' <= c <= 'F' then Some(c as int - 'A' as int + 10)
    else if 'a' <= c <= 'f' then Some(c as int - 'a' as int + 10)
    else None
  }

  function Hex(n: nat): (s: string)
    ensures s != [] && forall c :: c in s ==> ValueOf(c).Some?
  {
    (if n < 16 then [] else Hex(n / 16)) + [Digit(n % 16)]
  }

  function WithSign(minus: bool, digits: string): string { if minus then ['-'] + digits else digits }

  function Size(n: int): nat { if n < 0 then -n else n }

  function SignedHex(n: int): string { WithSign(n < 0, Hex(Size(n))) }

  // The value of hexadecimal digits; None where one is none.
  function FromDigits(s: string): Option<nat> {
    if s == [] then Some(0)
    else
      var before, last := FromDigits(s[..|s| - 1]), ValueOf(s[|s| - 1]);
      if before.None? || last.None? then None else Some(before.value * 16 + last.value)
  }

  function Signed(minus: bool, n: int): int { if minus then -n else n }

  function FromHex(s: string): Option<int> {
    if s == [] then None
    else if s[0] == '-' || s[0] == '+' then
      if |s| == 1 then None
      else
        var n := FromDigits(s[1..]);
        if n.None? then None else Some(Signed(s[0] == '-', n.value))
    else FromDigits(s)
  }

  lemma {:induction false} DigitReadsBack(d: int)
    requires 0 <= d < 16
    ensures ValueOf(Digit(d)) == Some(d)
  {
  }

  lemma {:induction false} LastDigit(before: string, c: char, n: nat, v: nat)
    requires FromDigits(before) == Some(n) && ValueOf(c) == Some(v)
    ensures FromDigits(before + [c]) == Some(n * 16 + v)
  {
    var s := before + [c];
    assert s[..|s| - 1] == before;
  }

  lemma {:induction false} HexReadsBack(n: nat)
    ensures FromDigits(Hex(n)) == Some(n)
    decreases n
  {
    var q, d := n / 16, n % 16;
    DigitReadsBack(d);
    var before := if n < 16 then [] else Hex(q);
    if n >= 16 {
      HexReadsBack(q);
    }
    LastDigit(before, Digit(d), q, d);
    assert Hex(n) == before + [Digit(d)];
  }

  ghost predicate Plain(digits: string) {
    digits != [] && digits[0] != '-' && digits[0] != '+' && '/' !in digits
  }

  lemma {:induction false} HexIsPlain(n: nat)
    ensures Plain(Hex(n))
  {
    var s := Hex(n);
    assert ValueOf('/') == None && ValueOf('-') == None && ValueOf('+') == None;
    assert s[0] in s;
  }

  lemma {:induction false} SignReads(minus: bool, digits: string, n: nat)
    requires Plain(digits) && FromDigits(digits) == Some(n)
    ensures FromHex(WithSign(minus, digits)) == Some(Signed(minus, n)) && '/' !in WithSign(minus, digits)
  {
    if minus {
      var s := ['-'] + digits;
      assert s[0] == '-' && s[1..] == digits;
    }
  }

  lemma {:induction false} SignedHexReadsBack(n: int)
    ensures FromHex(SignedHex(n)) == Some(n) && '/' !in SignedHex(n)
  {
    HexIsPlain(Size(n));
    HexReadsBack(Size(n));
    SignReads(n < 0, Hex(Size(n)), Size(n));
  }

  // Shifting down rounds down and the mask keeps what is left, for positions
  // below zero too.
  function FormatLsn(v: int): string { SignedHex(v / HALF) + ['/'] + Hex(v % HALF) }

  // Halves put together; None where a half is no hexadecimal number, or the
  // low one does not fit its half.
  function ReadLsn(s: string): Option<int>
    requires '/' in s
  {
    var hi, lo := FromHex(Head(s, '/')), FromHex(Tail(s, '/'));
    if hi.None? || lo.None? || !(0 <= lo.value < HALF) then None else Some(hi.value * HALF + lo.value)
  }

  lemma {:induction false} HalvesReadBack(hi: string, lo: string, h: int, l: int)
    requires FromHex(hi) == Some(h) && '/' !in hi && FromHex(lo) == Some(l) && 0 <= l < HALF
    ensures var s := hi + ['/'] + lo; '/' in s && ReadLsn(s) == Some(h * HALF + l)
  {
    Cuts(hi, '/', lo);
    assert (hi + ['/'] + lo)[|hi|] == '/';
  }

  lemma {:induction false} LsnReadsBack(v: int)
    ensures '/' in FormatLsn(v) && ReadLsn(FormatLsn(v)) == Some(v)
  {
    SignedHexReadsBack(v / HALF);
    SignedHexReadsBack(v % HALF);
    HalvesReadBack(SignedHex(v / HALF), Hex(v % HALF), v / HALF, v % HALF);
  }

  // No two positions are written alike.
  lemma {:induction false} LsnsDiffer(v: int, w: int)
    requires FormatLsn(v) == FormatLsn(w)
    ensures v == w
  {
    LsnReadsBack(v);
    LsnReadsBack(w);
  }

  // A half is written without leading zeros, in digits and capital letters.
  lemma {:induction false} HexIsWritten(n: nat)
    ensures n > 0 ==> Hex(n)[0] != '0'
    ensures forall c :: c in Hex(n) ==> '0' <= c <= '9' || 'A' <= c <= 'F'
  {
    if n >= 16 {
      HexIsWritten(n / 16);
    }
  }
}
