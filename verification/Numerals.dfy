/** What strtoull, strtoll and atoi make of any numeral: leading white space, a sign, digits,
    and whatever follows them; and when strtoll reads all of a text. */
module Numerals {
  import opened CText

  /** From 0 to i white space, then perhaps a sign, and from d to j digits and no more. */
  ghost predicate Scans(s: string, i: nat, d: nat, j: nat) {
    && i <= d <= j <= |s|
    && (forall k :: 0 <= k < i ==> s[k] == ' ' || 9 <= s[k] as int <= 13)
    && (d == i || (d == i + 1 && (s[i] == '-' || s[i] == '+')))
    && (d == i && i < |s| ==> s[i] != ' ' && !(9 <= s[i] as int <= 13) && s[i] != '-' && s[i] != '+')
    && (forall k :: d <= k < j ==> '0' <= s[k] <= '9')
    && (j < |s| ==> !('0' <= s[j] <= '9'))
  }

  lemma {:induction false} SkipSpaceTo(s: string, k: nat, i: nat)
    requires k <= i <= |s| && (forall m :: k <= m < i ==> IsSpace(s[m])) && (i < |s| ==> !IsSpace(s[i]))
    ensures SkipSpace(s, k) == i
    decreases i - k
  {
    if k < i {
      SkipSpaceTo(s, k + 1, i);
    }
  }

  lemma {:induction false} SkipDigitsTo(s: string, k: nat, j: nat)
    requires k <= j <= |s| && (forall m :: k <= m < j ==> IsDigit(s[m])) && (j < |s| ==> !IsDigit(s[j]))
    ensures SkipDigits(s, k) == j
    decreases j - k
  {
    if k < j {
      SkipDigitsTo(s, k + 1, j);
    }
  }

  /** A numeral is read up to its last digit; without a digit nothing is read. */
  lemma ScanNumeral(s: string, i: nat, d: nat, j: nat)
    requires Scans(s, i, d, j)
    ensures AllDigits(s[d..j])
    ensures ScanNumber(s) == if d == j then Scan(false, 0, 0) else Scan(d > i && s[i] == '-', Value(s[d..j]), j)
  {
    SkipSpaceTo(s, 0, i);
    SkipDigitsTo(s, d, j);
  }

  /** Leading zeros do not count. */
  lemma {:induction false} LeadingZeros(z: string, d: string)
    requires AllDigits(d) && forall i :: 0 <= i < |z| ==> z[i] == '0'
    ensures AllDigits(z + d) && Value(z + d) == Value(d)
    decreases |z| + |d|
  {
    var s := z + d;
    if d != "" {
      LeadingZeros(z, d[..|d| - 1]);
      assert s[..|s| - 1] == z + d[..|d| - 1];
    } else if z != "" {
      LeadingZeros(z[..|z| - 1], d);
      assert s[..|s| - 1] == z[..|z| - 1] + d;
      assert s[|s| - 1] == '0';
      assert Digit(0) == '0';
    }
  }

  // ----- The three functions on every printed number -----

  lemma DigitsAt(p: string, d: string, rest: string)
    requires AllDigits(d)
    ensures (p + d + rest)[|p|..|p| + |d|] == d
    ensures forall k :: |p| <= k < |p| + |d| ==> '0' <= (p + d + rest)[k] <= '9'
  {
    var s := p + d + rest;
    assert s[|p|..|p| + |d|] == d;
    forall k | |p| <= k < |p| + |d| ensures '0' <= s[k] <= '9' {
      assert s[k] == d[k - |p|];
    }
  }

  /** A printed number, perhaps after a minus sign. */
  lemma ScanPrinted(s: string, sign: string, n: nat, rest: string)
    requires (sign == "" || sign == "-") && s == sign + Dec(n) + rest && (rest == "" || !IsDigit(rest[0]))
    ensures ScanNumber(s) == Scan(sign == "-", n, |sign| + |Dec(n)|)
  {
    var d, j := |sign|, |sign| + |Dec(n)|;
    DigitsAt(sign, Dec(n), rest);
    ScanNumeral(s, 0, d, j);
    ValueOfDec(n);
  }

  /** strtoull saturates at the top. */
  lemma U64OfDec(n: nat, rest: string)
    requires rest == "" || !IsDigit(rest[0])
    ensures StrToU64(Dec(n) + rest) == if n < U64 then n else U64_MAX
  {
    assert "" + Dec(n) + rest == Dec(n) + rest;
    ScanPrinted(Dec(n) + rest, "", n, rest);
  }

  /** A minus sign makes strtoull negate modulo 2^64. */
  lemma U64OfNegated(n: nat, rest: string)
    requires rest == "" || !IsDigit(rest[0])
    ensures StrToU64("-" + Dec(n) + rest) == if n == 0 then 0 else if n < U64 then U64 - n else U64_MAX
  {
    ScanPrinted("-" + Dec(n) + rest, "-", n, rest);
  }

  /** strtoll saturates at both ends. */
  lemma I64OfDec(n: int, rest: string)
    requires rest == "" || !IsDigit(rest[0])
    ensures StrToI64(DecSigned(n) + rest)
         == if n > I64_MAX then I64_MAX else if n < -I64_MAX - 1 then -I64_MAX - 1 else n
  {
    if n < 0 {
      ScanPrinted(DecSigned(n) + rest, "-", -n, rest);
    } else {
      assert "" + Dec(n) + rest == Dec(n) + rest;
      ScanPrinted(DecSigned(n) + rest, "", n, rest);
    }
  }

  /** The low 32 bits, read as a signed number, differ from the number by a multiple of 2^32. */
  lemma Low32(n: int)
    ensures var low := n % 0x1_0000_0000;
            var r := if low > I32_MAX then low - 0x1_0000_0000 else low;
            -I32_MAX - 1 <= r <= I32_MAX && exists q: int :: r == n + q * 0x1_0000_0000
  {
    var low, q := n % 0x1_0000_0000, n / 0x1_0000_0000;
    assert low == n + (-q) * 0x1_0000_0000;
    assert low - 0x1_0000_0000 == n + (-q - 1) * 0x1_0000_0000;
  }

  /** atoi keeps the number modulo 2^32, in int range. */
  lemma AtoiOfDec(n: int, rest: string) returns (q: int)
    requires -I64_MAX - 1 <= n <= I64_MAX && (rest == "" || !IsDigit(rest[0]))
    ensures -I32_MAX - 1 <= Atoi(DecSigned(n) + rest) <= I32_MAX
    ensures Atoi(DecSigned(n) + rest) == n + q * 0x1_0000_0000
  {
    I64OfDec(n, rest);
    Low32(n);
    var r := Atoi(DecSigned(n) + rest);
    q :| r == n + q * 0x1_0000_0000;
  }

  // ----- When all of a text is read -----

  /** White space, perhaps a sign, at least one digit, and nothing else. */
  ghost predicate Numeral(s: string) {
    exists i, d :: 0 <= i <= d < |s| && Scans(s, i, d, |s|)
  }

  /** The first position from k on that is not white space. */
  lemma {:induction false} AfterSpace(s: string, k: nat) returns (i: nat)
    requires k <= |s|
    ensures k <= i <= |s| && (forall m :: k <= m < i ==> s[m] == ' ' || 9 <= s[m] as int <= 13)
    ensures i < |s| ==> s[i] != ' ' && !(9 <= s[i] as int <= 13)
    decreases |s| - k
  {
    i := k;
    if k < |s| && (s[k] == ' ' || 9 <= s[k] as int <= 13) {
      i := AfterSpace(s, k + 1);
    }
  }

  /** Every text scans somehow. */
  lemma ScansSomehow(s: string) returns (i: nat, d: nat, j: nat)
    ensures Scans(s, i, d, j)
  {
    i := AfterSpace(s, 0);
    d := if i < |s| && (s[i] == '-' || s[i] == '+') then i + 1 else i;
    j := SkipDigits(s, d);
    assert forall k :: d <= k < j ==> s[d..j][k - d] == s[k];
  }

  /** strtoll reads all of a text exactly when it is a numeral or empty. */
  lemma ReadsAllIff(s: string)
    ensures ScanEnd(s) == |s| <==> s == "" || Numeral(s)
  {
    var i, d, j := ScansSomehow(s);
    ScanNumeral(s, i, d, j);
    if Numeral(s) {
      var i', d' :| 0 <= i' <= d' < |s| && Scans(s, i', d', |s|);
      ScanNumeral(s, i', d', |s|);
    }
  }
}
