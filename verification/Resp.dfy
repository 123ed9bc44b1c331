/** RESP2 values, the printers and the incremental parser of app/resp.c. */
module Resp {
  import opened Options
  import opened CText
  import opened Sequences

  datatype RespValue =
    | Simple(str: string)
    | Error(str: string)
    | Integer(n: int)
    | Bulk(str: string)
    | Array(elements: seq<RespValue>)

  /** RESP_OK with the value and the bytes consumed, RESP_INCOMPLETE, or RESP_ERR. */
  datatype ParseResult<+T> = Ok(value: T, consumed: nat) | Incomplete | Err

  // ----- Parser -----

  predicate CrlfAt(s: string, i: nat) {
    i + 1 < |s| && s[i] == '\r' && s[i + 1] == '\n'
  }

  /** memmem(s + i, |s| - i, "\r\n", 2): the first CRLF from i on, or |s| when there is none. */
  function FindCrlf(s: string, i: nat): (j: nat)
    requires i <= |s|
    ensures i <= j <= |s|
    ensures j < |s| ==> CrlfAt(s, j)
    decreases |s| - i
  {
    if i == |s| || CrlfAt(s, i) then i else FindCrlf(s, i + 1)
  }

  lemma {:induction false} FindCrlfIsFirst(s: string, i: nat, k: nat)
    requires i <= |s| && i <= k < FindCrlf(s, i)
    ensures !CrlfAt(s, k)
    decreases |s| - i
  {
    if i < k {
      FindCrlfIsFirst(s, i + 1, k);
    }
  }

  /** atoi(line + 1) for a header line. */
  function HeaderNumber(line: string): (n: int)
    ensures n <= I32_MAX
  {
    if line == "" then 0 else Atoi(line[1..])
  }

  /** A header line: its number and the bytes up to and including its CRLF. */
  function ParseHeader(data: string): (r: ParseResult<nat>)
    ensures r.Ok? ==> 2 <= r.consumed <= |data| && r.value <= I32_MAX
  {
    var e := FindCrlf(data, 0);
    if e == |data| then Incomplete
    else
      var n := HeaderNumber(data[..e]);
      if n < 0 then Err else Ok(n, e + 2)
  }

  function ParseBulk(data: string): (r: ParseResult<string>)
    ensures r.Ok? ==> 2 <= r.consumed <= |data|
  {
    match ParseHeader(data)
    case Incomplete => Incomplete
    case Err => Err
    case Ok(n, h) =>
      if |data| < h + n + 2 then Incomplete
      else Ok(data[h..h + n], h + n + 2)
  }

  function ParseElements(data: string, n: nat): (r: ParseResult<seq<string>>)
    ensures r.Ok? ==> r.consumed <= |data| && |r.value| == n
    decreases n
  {
    if n == 0 then Ok([], 0)
    else
      match ParseBulk(data)
      case Incomplete => Incomplete
      case Err => Err
      case Ok(s, c) =>
        match ParseElements(data[c..], n - 1)
        case Incomplete => Incomplete
        case Err => Err
        case Ok(ss, d) => Ok([s] + ss, c + d)
  }

  function Bulks(ss: seq<string>): (vs: seq<RespValue>)
    ensures |vs| == |ss|
    ensures forall i :: 0 <= i < |ss| ==> vs[i] == Bulk(ss[i])
  {
    seq(|ss|, i requires 0 <= i < |ss| => Bulk(ss[i]))
  }

  function ParseArray(data: string): (r: ParseResult<seq<string>>)
    ensures r.Ok? ==> 2 <= r.consumed <= |data|
  {
    match ParseHeader(data)
    case Incomplete => Incomplete
    case Err => Err
    case Ok(n, h) =>
      match ParseElements(data[h..], n)
      case Incomplete => Incomplete
      case Err => Err
      case Ok(ss, c) => Ok(ss, h + c)
  }

  /** parseResp on the used part of a buffer. */
  function Parse(data: string): (r: ParseResult<RespValue>)
    ensures r.Ok? ==> 2 <= r.consumed <= |data|
  {
    if |data| < 3 then Incomplete
    else if data[0] == '*' then
      match ParseArray(data)
      case Incomplete => Incomplete
      case Err => Err
      case Ok(ss, c) => Ok(Array(Bulks(ss)), c)
    else if data[0] == '$' then
      match ParseBulk(data)
      case Incomplete => Incomplete
      case Err => Err
      case Ok(s, c) => Ok(Bulk(s), c)
    else Err
  }

  // ----- OK and ERR are stable under extending the input -----

  lemma {:induction false} FindCrlfExtends(s: string, t: string, i: nat)
    requires i <= |s| && FindCrlf(s, i) < |s|
    ensures FindCrlf(s + t, i) == FindCrlf(s, i)
    decreases |s| - i
  {
    if !CrlfAt(s, i) {
      FindCrlfExtends(s, t, i + 1);
    }
  }

  lemma HeaderExtends(s: string, t: string)
    requires !ParseHeader(s).Incomplete?
    ensures ParseHeader(s + t) == ParseHeader(s)
  {
    FindCrlfExtends(s, t, 0);
    var e := FindCrlf(s, 0);
    assert (s + t)[..e] == s[..e];
  }

  lemma BulkExtends(s: string, t: string)
    requires !ParseBulk(s).Incomplete?
    ensures ParseBulk(s + t) == ParseBulk(s)
  {
    HeaderExtends(s, t);
    if ParseHeader(s).Ok? {
      var Ok(n, h) := ParseHeader(s);
      assert (s + t)[h..h + n] == s[h..h + n];
    }
  }

  lemma {:induction false} ElementsExtend(s: string, t: string, n: nat)
    requires !ParseElements(s, n).Incomplete?
    ensures ParseElements(s + t, n) == ParseElements(s, n)
    decreases n
  {
    if n > 0 {
      BulkExtends(s, t);
      if ParseBulk(s).Ok? {
        var c := ParseBulk(s).consumed;
        CutFront(s, t, c);
        ElementsExtend(s[c..], t, n - 1);
      }
    }
  }

  lemma ArrayExtends(s: string, t: string)
    requires !ParseArray(s).Incomplete?
    ensures ParseArray(s + t) == ParseArray(s)
  {
    HeaderExtends(s, t);
    if ParseHeader(s).Ok? {
      var Ok(n, h) := ParseHeader(s);
      CutFront(s, t, h);
      ElementsExtend(s[h..], t, n);
    }
  }

  /** A verdict other than INCOMPLETE does not change when more bytes arrive. */
  lemma ParseExtends(s: string, t: string)
    requires !Parse(s).Incomplete?
    ensures Parse(s + t) == Parse(s)
  {
    if s[0] == '*' {
      ArrayExtends(s, t);
    } else if s[0] == '$' {
      BulkExtends(s, t);
    }
  }

  // ----- Printers -----

  /** encodeBulkString: length-prefixed, so NUL bytes are kept. */
  function BulkText(s: string): (r: string)
    ensures |r| >= 3
  {
    "$" + Dec(|s|) + CRLF + s + CRLF
  }

  function ArrayHeader(n: nat): string {
    "*" + Dec(n) + CRLF
  }

  const NULL_BULK: string := "$-1\r\n"

  /** What one element contributes to createRespArrayFromElements: its printer's
      output up to the first NUL, since it is appended by strlen. */
  function ElementText(v: RespValue): string
    decreases v
  {
    match v
    case Simple(s) => "+" + CStr(s) + CRLF
    case Error(s) => "-" + CStr(s) + CRLF
    case Integer(n) => ":" + DecSigned(n) + CRLF
    case Bulk(s) => CStr(BulkText(s))
    case Array(es) => ArrayText(es)
  }

  function ElementsText(es: seq<RespValue>): string
    decreases es, 0
  {
    if es == [] then "" else ElementText(es[0]) + ElementsText(es[1..])
  }

  /** createRespArrayFromElements; its final strndup also stops at a NUL. */
  function ArrayText(es: seq<RespValue>): string
    decreases es, 1
  {
    CStr(ArrayHeader(|es|) + ElementsText(es))
  }

  /** RESP2 arrays of bulk strings as the protocol specification writes them. */
  function BulksWire(ss: seq<string>): string {
    if ss == [] then "" else BulkText(ss[0]) + BulksWire(ss[1..])
  }

  function Wire(ss: seq<string>): string {
    ArrayHeader(|ss|) + BulksWire(ss)
  }

  predicate AllNulFree(ss: seq<string>) {
    forall s :: s in ss ==> NulFree(s)
  }

  predicate IntRange(ss: seq<string>) {
    |ss| <= I32_MAX && forall s :: s in ss ==> |s| <= I32_MAX
  }

  /** The arrays that survive a trip through the printer and the parser. */
  predicate Transmissible(ss: seq<string>) {
    AllNulFree(ss) && IntRange(ss)
  }

  lemma DecSignedNulFree(n: int)
    ensures NulFree(DecSigned(n))
  {
    var d := Dec(if n < 0 then -n else n);
    assert NulFree(d);
  }

  lemma DecSignedNoCr(n: int)
    ensures '\r' !in DecSigned(n)
  {
    var d := Dec(if n < 0 then -n else n);
    assert '\r' !in d;
  }

  lemma {:induction false} ElementTextNulFree(v: RespValue)
    ensures NulFree(ElementText(v))
  {
    if v.Integer? {
      DecSignedNulFree(v.n);
    }
  }

  lemma {:induction false} ElementsTextNulFree(es: seq<RespValue>)
    ensures NulFree(ElementsText(es))
  {
    if es != [] {
      ElementTextNulFree(es[0]);
      ElementsTextNulFree(es[1..]);
    }
  }

  /** The final strndup loses nothing: every element was already cut at its first NUL. */
  lemma ArrayTextUncut(es: seq<RespValue>)
    ensures ArrayText(es) == ArrayHeader(|es|) + ElementsText(es)
  {
    ElementsTextNulFree(es);
    DecSignedNulFree(|es|);
  }

  lemma BulkTextNulFree(s: string)
    requires NulFree(s)
    ensures NulFree(BulkText(s))
  {
    DecSignedNulFree(|s|);
    assert NulFree("$" + Dec(|s|) + CRLF);
  }

  lemma {:induction false} BulksTextIsWire(ss: seq<string>)
    requires AllNulFree(ss)
    ensures ElementsText(Bulks(ss)) == BulksWire(ss)
  {
    if ss != [] {
      BulkTextNulFree(ss[0]);
      assert Bulks(ss)[1..] == Bulks(ss[1..]);
      BulksTextIsWire(ss[1..]);
    }
  }

  lemma ArrayTextIsWire(ss: seq<string>)
    requires AllNulFree(ss)
    ensures ArrayText(Bulks(ss)) == Wire(ss)
  {
    ArrayTextUncut(Bulks(ss));
    BulksTextIsWire(ss);
  }

  // ----- Round trip -----

  lemma {:induction false} FindCrlfAfter(p: string, rest: string, i: nat)
    requires '\r' !in p && i <= |p|
    ensures FindCrlf(p + CRLF + rest, i) == |p|
    decreases |p| - i
  {
    if i < |p| {
      FindCrlfAfter(p, rest, i + 1);
    }
  }

  /** A printed header line reads back as the number printed. */
  lemma HeaderRoundTrip(mark: char, n: nat, rest: string)
    requires mark != '\r' && n <= I32_MAX
    ensures ParseHeader([mark] + Dec(n) + CRLF + rest) == Ok(n, 3 + |Dec(n)|)
  {
    var p := [mark] + Dec(n);
    FindCrlfAfter(p, rest, 0);
    AtoiDec(n);
    assert p[1..] == Dec(n);
    assert (p + CRLF + rest)[..|p|] == p;
  }

  lemma BulkStep(header: string, s: string, tail: string)
    requires ParseHeader(header + (s + tail)) == Ok(|s|, |header|) && |tail| >= 2
    ensures ParseBulk(header + (s + tail)) == Ok(s, |header| + |s| + 2)
  {
    assert (header + (s + tail))[|header|..|header| + |s|] == s;
  }

  lemma BulkRoundTrip(s: string, rest: string)
    requires |s| <= I32_MAX
    ensures ParseBulk(BulkText(s) + rest) == Ok(s, |BulkText(s)|)
  {
    var header, tail := "$" + Dec(|s|) + CRLF, CRLF + rest;
    assert BulkText(s) + rest == header + (s + tail);
    HeaderRoundTrip('$', |s|, s + tail);
    BulkStep(header, s, tail);
  }

  lemma {:induction false} ElementsRoundTrip(ss: seq<string>, rest: string)
    requires forall s :: s in ss ==> |s| <= I32_MAX
    ensures ParseElements(BulksWire(ss) + rest, |ss|) == Ok(ss, |BulksWire(ss)|)
  {
    if ss != [] {
      var tail := BulksWire(ss[1..]) + rest;
      ElementsRoundTrip(ss[1..], rest);
      BulkRoundTrip(ss[0], tail);
      ElementsStep(BulkText(ss[0]), tail, ss);
      assert BulksWire(ss) + rest == BulkText(ss[0]) + tail;
    }
  }

  lemma ElementsStep(first: string, tail: string, ss: seq<string>)
    requires ss != []
    requires ParseBulk(first + tail) == Ok(ss[0], |first|)
    requires ParseElements(tail, |ss| - 1).Ok? && ParseElements(tail, |ss| - 1).value == ss[1..]
    ensures ParseElements(first + tail, |ss|) == Ok(ss, |first| + ParseElements(tail, |ss| - 1).consumed)
  {
    assert (first + tail)[|first|..] == tail;
    assert [ss[0]] + ss[1..] == ss;
  }

  lemma ArrayStep(header: string, tail: string, n: nat)
    requires ParseHeader(header + tail) == Ok(n, |header|)
    requires ParseElements(tail, n).Ok?
    ensures ParseArray(header + tail)
         == Ok(ParseElements(tail, n).value, |header| + ParseElements(tail, n).consumed)
  {
    assert (header + tail)[|header|..] == tail;
  }

  lemma FlatArrayRoundTrip(ss: seq<string>, rest: string)
    requires IntRange(ss)
    ensures ParseArray(Wire(ss) + rest) == Ok(ss, |Wire(ss)|)
  {
    var header, tail := ArrayHeader(|ss|), BulksWire(ss) + rest;
    ConcatAssociative(header, BulksWire(ss), rest);
    HeaderRoundTrip('*', |ss|, tail);
    ElementsRoundTrip(ss, rest);
    ArrayStep(header, tail, |ss|);
  }

  /** The protocol's own encoding parses back, whatever bytes it carries. */
  lemma WireRoundTrip(ss: seq<string>, rest: string)
    requires IntRange(ss)
    ensures Parse(Wire(ss) + rest) == Ok(Array(Bulks(ss)), |Wire(ss)|)
  {
    FlatArrayRoundTrip(ss, rest);
  }

  // ----- What the parser can return -----

  predicate NulFreeTo(d: string, c: nat)
    requires c <= |d|
  {
    forall i :: 0 <= i < c ==> d[i] != '\0'
  }

  lemma BulkFromInput(d: string)
    requires ParseBulk(d).Ok?
    ensures |ParseBulk(d).value| <= I32_MAX
    ensures NulFreeTo(d, ParseBulk(d).consumed) ==> NulFree(ParseBulk(d).value)
  {
  }

  lemma {:induction false} ElementsFromInput(d: string, n: nat)
    requires ParseElements(d, n).Ok?
    ensures forall s :: s in ParseElements(d, n).value ==> |s| <= I32_MAX
    ensures NulFreeTo(d, ParseElements(d, n).consumed) ==> AllNulFree(ParseElements(d, n).value)
    decreases n
  {
    if n > 0 {
      BulkFromInput(d);
      ElementsFromInput(d[ParseBulk(d).consumed..], n - 1);
    }
  }

  lemma ArrayFromInput(d: string)
    requires ParseArray(d).Ok?
    ensures IntRange(ParseArray(d).value)
    ensures NulFreeTo(d, ParseArray(d).consumed) ==> AllNulFree(ParseArray(d).value)
  {
    var Ok(n, h) := ParseHeader(d);
    ElementsFromInput(d[h..], n);
  }

  lemma BulksInjective(ss: seq<string>, tt: seq<string>)
    requires Bulks(ss) == Bulks(tt)
    ensures ss == tt
  {
    assert |ss| == |Bulks(ss)| == |tt|;
    forall i | 0 <= i < |ss| ensures ss[i] == tt[i] {
      assert Bulks(ss)[i] == Bulks(tt)[i];
    }
  }

  /** Parsing the printed array and any suffix gives the array back and leaves exactly
      the suffix, if and only if the array is NUL-free with int-range lengths. */
  lemma ArrayRoundTrip(ss: seq<string>, rest: string)
    ensures Parse(ArrayText(Bulks(ss)) + rest) == Ok(Array(Bulks(ss)), |ArrayText(Bulks(ss))|)
       <==> Transmissible(ss)
  {
    var text := ArrayText(Bulks(ss));
    if Transmissible(ss) {
      ArrayTextIsWire(ss);
      WireRoundTrip(ss, rest);
    }
    if Parse(text + rest) == Ok(Array(Bulks(ss)), |text|) {
      assert NulFreeTo(text + rest, |text|);
      assert text[0] == '*' by { ArrayTextUncut(Bulks(ss)); }
      BulksInjective(ss, ParseArray(text + rest).value);
      ArrayFromInput(text + rest);
    }
  }

  // ----- calculateCommandSize -----

  method CalculateCommandSize(ss: seq<string>) returns (size: nat)
    ensures size == |Wire(ss)|
    ensures AllNulFree(ss) ==> size == |ArrayText(Bulks(ss))|
    ensures Transmissible(ss) ==> forall rest :: Parse(ArrayText(Bulks(ss)) + rest).Ok?
                                    && Parse(ArrayText(Bulks(ss)) + rest).consumed == size
  {
    size := |ArrayHeader(|ss|)|;
    var i := 0;
    while i < |ss|
      invariant i <= |ss|
      invariant size + |BulksWire(ss[i..])| == |Wire(ss)|
    {
      assert ss[i..][1..] == ss[i + 1..];
      size := size + |"$" + Dec(|ss[i]|) + CRLF| + |ss[i]| + 2;
      i := i + 1;
    }
    if AllNulFree(ss) {
      ArrayTextIsWire(ss);
    }
    forall rest | Transmissible(ss) ensures Parse(ArrayText(Bulks(ss)) + rest).Ok?
                                    && Parse(ArrayText(Bulks(ss)) + rest).consumed == size {
      ArrayRoundTrip(ss, rest);
    }
  }

  // ----- Replies read back into values (parseResponseToRespValue) -----

  /** The value parsed from a reply's text, or None where the C code hands back
      memory it never initialised. */
  function ParseResponse(r: string): Option<RespValue> {
    if r == "" then None
    else if r[0] == '+' || r[0] == '-' || r[0] == ':' then
      var e := FindCrlf(r, 0);
      if e == |r| then None
      else if r[0] == '+' then Some(Simple(CStr(r[1..e])))
      else if r[0] == '-' then Some(Error(CStr(r[1..e])))
      else Some(Integer(StrToI64(r[1..e])))
    else if r[0] == '$' then
      (match ParseBulk(r) case Ok(s, _) => Some(Bulk(s)) case _ => None)
    else if r[0] == '*' then
      (match ParseArray(r) case Ok(ss, _) => Some(Array(Bulks(ss))) case _ => None)
    else None
  }

  predicate NoCrlf(s: string) {
    forall i :: 0 <= i < |s| ==> !CrlfAt(s, i)
  }

  /** Replies that are simple strings, errors, integers, non-null bulk strings or flat
      arrays of non-null bulk strings. */
  ghost predicate Canonical(v: RespValue) {
    match v
    case Simple(s) => NulFree(s) && NoCrlf(s)
    case Error(s) => NulFree(s) && NoCrlf(s)
    case Integer(n) => -I64_MAX - 1 <= n <= I64_MAX
    case Bulk(s) => NulFree(s) && |s| <= I32_MAX
    case Array(es) => exists ss :: Transmissible(ss) && es == Bulks(ss)
  }

  lemma {:induction false} FindCrlfAtEnd(s: string, i: nat)
    requires NoCrlf(s) && i <= |s|
    ensures FindCrlf(s + CRLF, i) == |s|
    decreases |s| - i
  {
    if i < |s| {
      assert !CrlfAt(s + CRLF, i) by {
        assert !CrlfAt(s, i);
      }
      FindCrlfAtEnd(s, i + 1);
    }
  }

  lemma LineRoundTrip(mark: char, s: string)
    requires mark != '\r' && NoCrlf(s)
    ensures FindCrlf([mark] + s + CRLF, 0) == 1 + |s|
    ensures ([mark] + s + CRLF)[1..1 + |s|] == s
  {
    var t := [mark] + s;
    forall i | 0 <= i < |t| ensures !CrlfAt(t, i) {
      if i > 0 && CrlfAt(t, i) {
        assert CrlfAt(s, i - 1);
      }
    }
    FindCrlfAtEnd(t, 0);
  }

  lemma ParsePrintedLine(mark: char, s: string)
    requires mark == '+' || mark == '-' || mark == ':'
    requires NoCrlf(s)
    ensures ParseResponse([mark] + s + CRLF)
         == Some(if mark == '+' then Simple(CStr(s)) else if mark == '-' then Error(CStr(s)) else Integer(StrToI64(s)))
  {
    LineRoundTrip(mark, s);
  }

  lemma ParsePrintedInteger(n: int)
    requires -I64_MAX - 1 <= n <= I64_MAX
    ensures ParseResponse(":" + DecSigned(n) + CRLF) == Some(Integer(n))
  {
    DecSignedNoCr(n);
    ParsePrintedLine(':', DecSigned(n));
    DecSignedRoundTrip(n);
  }

  lemma ParsePrintedBulk(s: string)
    requires NulFree(s) && |s| <= I32_MAX
    ensures ParseResponse(CStr(BulkText(s))) == Some(Bulk(s))
  {
    BulkTextNulFree(s);
    BulkRoundTrip(s, "");
    assert BulkText(s) + "" == BulkText(s);
  }

  lemma ParsePrintedArray(ss: seq<string>)
    requires Transmissible(ss)
    ensures ParseResponse(ArrayText(Bulks(ss))) == Some(Array(Bulks(ss)))
  {
    var text := ArrayText(Bulks(ss));
    ArrayRoundTrip(ss, "");
    assert text + "" == text;
    assert text[0] == '*' by { ArrayTextUncut(Bulks(ss)); }
  }

  lemma ParsePrinted(v: RespValue)
    requires Canonical(v)
    ensures ParseResponse(ElementText(v)) == Some(v)
  {
    match v
    case Simple(s) => ParsePrintedLine('+', s);
    case Error(s) => ParsePrintedLine('-', s);
    case Integer(n) => ParsePrintedInteger(n);
    case Bulk(s) => ParsePrintedBulk(s);
    case Array(es) =>
      var ss :| Transmissible(ss) && es == Bulks(ss);
      ParsePrintedArray(ss);
  }

  lemma ParsedIsCanonical(r: string)
    requires NulFree(r) && ParseResponse(r).Some?
    ensures Canonical(ParseResponse(r).value)
  {
    if r[0] == '+' || r[0] == '-' || r[0] == ':' {
      var e := FindCrlf(r, 0);
      forall i | 0 <= i < |r[1..e]| ensures !CrlfAt(r[1..e], i) {
        FindCrlfIsFirst(r, 0, i + 1);
      }
      assert NulFree(r[1..e]);
    } else if r[0] == '$' {
      BulkFromInput(r);
      assert NulFreeTo(r, ParseBulk(r).consumed);
    } else {
      ArrayFromInput(r);
      assert NulFreeTo(r, ParseArray(r).consumed);
    }
  }

  ghost predicate SurvivesExec(r: string) {
    ParseResponse(r).Some? && ElementText(ParseResponse(r).value) == r
  }

  /** Parsing a reply and printing it again gives the reply back exactly for the
      texts of canonical values. */
  lemma ReplyRoundTrip(r: string)
    requires NulFree(r)
    ensures SurvivesExec(r) <==> exists v :: Canonical(v) && r == ElementText(v)
  {
    if v :| Canonical(v) && r == ElementText(v) {
      ParsePrinted(v);
    }
    if SurvivesExec(r) {
      ParsedIsCanonical(r);
    }
  }

  // ----- cloneRespValue -----

  function Clone(v: RespValue): (c: RespValue)
    ensures c == v
  {
    match v
    case Simple(s) => Simple(s)
    case Error(s) => Error(s)
    case Integer(n) => Integer(n)
    case Bulk(s) => Bulk(s)
    case Array(es) =>
      var cs := seq(|es|, i requires 0 <= i < |es| => Clone(es[i]));
      assert cs == es;
      Array(cs)
  }
}
