/** C strings and the C library's decimal conversions, as FastKey uses them.
    A C `char` is a Dafny `char`; a byte buffer is a `string` that may hold NULs. */
module CText {

  const U64: int := 0x1_0000_0000_0000_0000
  const U64_MAX: int := U64 - 1
  const I64_MAX: int := 0x7FFF_FFFF_FFFF_FFFF
  const I32_MAX: int := 0x7FFF_FFFF
  const CRLF: string := "\r\n"

  predicate NulFree(s: string) {
    '\0' !in s
  }

  /** The C string that starts at a buffer's first byte: everything before its first NUL. */
  function CStr(s: string): (r: string)
    ensures NulFree(r)
    ensures r <= s
    ensures r == s <==> NulFree(s)
    ensures |r| < |s| ==> s[|r|] == '\0'
  {
    if s == "" then ""
    else if s[0] == '\0' then ""
    else [s[0]] + CStr(s[1..])
  }

  // ----- Printing: %zu, %lu, %lld -----

  function Digit(d: nat): (c: char)
    requires d < 10
    ensures IsDigit(c) && DigitValue(c) == d
  {
    (48 + d) as char
  }

  predicate IsDigit(c: char) {
    '0' <= c <= '9'
  }

  function DigitValue(c: char): (d: nat)
    requires IsDigit(c)
    ensures d < 10
  {
    c as int - 48
  }

  predicate AllDigits(s: string) {
    forall i :: 0 <= i < |s| ==> IsDigit(s[i])
  }

  function Dec(n: nat): (s: string)
    ensures |s| >= 1 && AllDigits(s)
  {
    if n < 10 then [Digit(n)] else Dec(n / 10) + [Digit(n % 10)]
  }

  function DecSigned(n: int): string {
    if n < 0 then "-" + Dec(-n) else Dec(n)
  }

  // ----- Reading: strtoull, strtoll, atoi -----

  /** The number a run of decimal digits denotes. */
  function Value(s: string): (n: nat)
    requires AllDigits(s)
  {
    if s == "" then 0 else 10 * Value(s[..|s| - 1]) + DigitValue(s[|s| - 1])
  }

  predicate IsSpace(c: char) {
    c == ' ' || ('\t' <= c <= '\r')
  }

  function SkipSpace(s: string, i: nat): (j: nat)
    requires i <= |s|
    ensures i <= j <= |s|
    decreases |s| - i
  {
    if i < |s| && IsSpace(s[i]) then SkipSpace(s, i + 1) else i
  }

  function SkipDigits(s: string, i: nat): (j: nat)
    requires i <= |s|
    ensures i <= j <= |s| && AllDigits(s[i..j])
    ensures j < |s| ==> !IsDigit(s[j])
    decreases |s| - i
  {
    if i < |s| && IsDigit(s[i]) then
      var j := SkipDigits(s, i + 1);
      assert s[i..j] == [s[i]] + s[i + 1..j];
      j
    else i
  }

  /** What strtol's family scans: sign, magnitude and the end position.
      With no digits the end position is 0, the start of the text. */
  datatype Scan = Scan(negative: bool, magnitude: nat, end: nat)

  function ScanNumber(s: string): (r: Scan)
    ensures r.end <= |s|
  {
    var i := SkipSpace(s, 0);
    var signed := i < |s| && (s[i] == '-' || s[i] == '+');
    var d := if signed then i + 1 else i;
    var j := SkipDigits(s, d);
    if j == d then Scan(false, 0, 0)
    else Scan(signed && s[i] == '-', Value(s[d..j]), j)
  }

  /** strtoull(s, &end, 10): saturates at UINT64_MAX, negates modulo 2^64. */
  function StrToU64(s: string): (n: nat)
    ensures n < U64
  {
    var r := ScanNumber(s);
    if r.magnitude > U64_MAX then U64_MAX
    else if r.negative then (U64 - r.magnitude) % U64
    else r.magnitude
  }

  /** strtoll(s, &end, 10) and atoll(s): saturates at the ends of the 64-bit range. */
  function StrToI64(s: string): (n: int)
    ensures -I64_MAX - 1 <= n <= I64_MAX
  {
    var r := ScanNumber(s);
    if r.negative then (if r.magnitude > I64_MAX then -I64_MAX - 1 else 0 - r.magnitude)
    else (if r.magnitude > I64_MAX then I64_MAX else r.magnitude)
  }

  function ScanEnd(s: string): (n: nat)
    ensures n <= |s|
  {
    ScanNumber(s).end
  }

  /** atoi(s), as glibc defines it: the low 32 bits of strtol(s). */
  function Atoi(s: string): (n: int)
    ensures -I32_MAX - 1 <= n <= I32_MAX
  {
    var low := StrToI64(s) % 0x1_0000_0000;
    if low > I32_MAX then low - 0x1_0000_0000 else low
  }

  // ----- Printing and reading are inverse -----

  lemma {:induction false} ValueOfDec(n: nat)
    ensures Value(Dec(n)) == n
  {
    if n >= 10 {
      ValueOfDec(n / 10);
      assert Dec(n)[..|Dec(n)| - 1] == Dec(n / 10);
    }
  }

  lemma {:induction false} SkipDigitsOver(d: string, rest: string, i: nat)
    requires AllDigits(d) && i <= |d|
    requires rest == "" || !IsDigit(rest[0])
    ensures SkipDigits(d + rest, i) == |d|
    decreases |d| - i
  {
    if i < |d| {
      SkipDigitsOver(d, rest, i + 1);
    }
  }

  /** Scanning printed digits stops at the first non-digit and yields the number printed. */
  lemma ScanDec(n: nat, rest: string)
    requires rest == "" || !IsDigit(rest[0])
    ensures ScanNumber(Dec(n) + rest) == Scan(false, n, |Dec(n)|)
  {
    var d := Dec(n);
    SkipDigitsOver(d, rest, 0);
    assert (d + rest)[0..|d|] == d;
    ValueOfDec(n);
    assert IsDigit((d + rest)[0]);
  }

  lemma AtoiDec(n: nat)
    requires n <= I32_MAX
    ensures Atoi(Dec(n)) == n
  {
    ScanDec(n, "");
    assert Dec(n) + "" == Dec(n);
  }

  /** strtoll reads back what %lld printed, and reads all of it. */
  lemma DecSignedRoundTrip(n: int)
    requires -I64_MAX - 1 <= n <= I64_MAX
    ensures StrToI64(DecSigned(n)) == n
    ensures ScanEnd(DecSigned(n)) == |DecSigned(n)|
  {
    var d := Dec(if n < 0 then -n else n);
    assert d + "" == d;
    if n >= 0 {
      ScanDec(n, "");
    } else {
      ScanNegative(d);
      ValueOfDec(-n);
    }
  }

  lemma ScanNegative(d: string)
    requires d != "" && AllDigits(d)
    ensures ScanNumber("-" + d) == Scan(true, Value(d), 1 + |d|)
  {
    var s := "-" + d;
    ShiftedDigits(d, "");
    assert s + "" == s;
    assert s[1..1 + |d|] == d;
  }

  lemma ShiftedDigits(d: string, rest: string)
    requires AllDigits(d)
    requires rest == "" || !IsDigit(rest[0])
    ensures SkipDigits("-" + d + rest, 1) == 1 + |d|
  {
    ShiftedDigitsFrom(d, rest, 0);
  }

  lemma {:induction false} ShiftedDigitsFrom(d: string, rest: string, i: nat)
    requires AllDigits(d) && i <= |d|
    requires rest == "" || !IsDigit(rest[0])
    ensures SkipDigits("-" + d + rest, 1 + i) == 1 + |d|
    decreases |d| - i
  {
    var s := "-" + d + rest;
    if i < |d| {
      assert s[1 + i] == d[i];
      ShiftedDigitsFrom(d, rest, i + 1);
    }
  }

  // ----- Digit counts -----

  function Pow10(k: nat): (p: nat)
    ensures p >= 1
  {
    if k == 0 then 1 else 10 * Pow10(k - 1)
  }

  /** n without its last k decimal digits. */
  function DropDigits(n: nat, k: nat): (m: nat)
    ensures m <= n
    ensures k > 0 && n > 0 ==> m < n
  {
    if k == 0 then n else DropDigits(n / 10, k - 1)
  }

  lemma {:induction false} DropDigitsIsQuotient(n: nat, k: nat)
    ensures DropDigits(n, k) == n / Pow10(k)
  {
    if k > 0 {
      DropDigitsIsQuotient(n / 10, k - 1);
      DivDiv(n, Pow10(k - 1));
    }
  }

  /** Dropping the last k characters of a printed number drops its last k digits. */
  lemma {:induction false} DecPrefix(n: nat, k: nat)
    requires k < |Dec(n)|
    ensures Dec(n)[..|Dec(n)| - k] == Dec(DropDigits(n, k))
  {
    if k == 0 {
      assert Dec(n)[..|Dec(n)|] == Dec(n);
    } else {
      DecPrefix(n / 10, k - 1);
      assert Dec(n)[..|Dec(n)| - k] == Dec(n / 10)[..|Dec(n / 10)| - (k - 1)];
    }
  }

  lemma DivDiv(n: nat, p: nat)
    requires p >= 1
    ensures (n / 10) / p == n / (10 * p)
  {
    var m, r := n / 10, n % 10;
    var q, s := m / p, m % p;
    assert m == p * q + s;
    assert (10 * p) * q == 10 * (p * q);
    QuotientUnique(n, 10 * p, q, 10 * s + r);
  }

  lemma QuotientUnique(n: nat, p: nat, q: nat, r: nat)
    requires p >= 1 && r < p && n == p * q + r
    ensures n / p == q
  {
    var q', r' := n / p, n % p;
    assert n == p * q' + r';
    assert p * (q - q') == r' - r;
    SmallMultiple(p, q - q');
  }

  lemma SmallMultiple(p: int, d: int)
    requires p >= 1 && -p < p * d < p
    ensures d == 0
  {
    assert d >= 1 ==> p * d >= p * 1;
    assert d <= -1 ==> p * d <= p * -1;
  }

  lemma {:induction false} DecLength(n: nat, k: nat)
    requires k >= 1
    ensures |Dec(n)| <= k <==> n < Pow10(k)
  {
    if k == 1 {
      assert Pow10(1) == 10 * Pow10(0);
    } else if n >= 10 {
      DecLength(n / 10, k - 1);
    } else {
      assert Pow10(k) >= 10;
    }
  }

  lemma U64Digits(n: nat)
    requires n < U64
    ensures |Dec(n)| <= 20
  {
    assert Pow10(5) == 100000;
    assert Pow10(10) == 10000000000;
    assert Pow10(15) == 1000000000000000;
    assert Pow10(20) == 100000000000000000000;
    DecLength(n, 20);
  }
}
