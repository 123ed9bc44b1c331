/** What a client may send: commands, and values that are not commands, as RESP writes them
    (app/client_handler.c:53-60, app/client_handler.c:98-105). */
module Messages {
  import opened CText
  import opened Sequences
  import R = Resp
  import B = RespBuffers
  import N = Numerals

  /** An array of bulk strings, perhaps empty, or a bulk string on its own. */
  datatype Message = Array(args: seq<string>) | Stray(text: string)

  predicate Sized(m: Message) {
    match m
    case Array(args) => R.IntRange(args)
    case Stray(text) => |text| <= I32_MAX
  }

  predicate AllSized(ms: seq<Message>) {
    forall m :: m in ms ==> Sized(m)
  }

  function BytesOf(m: Message): string {
    match m
    case Array(args) => R.Wire(args)
    case Stray(text) => R.BulkText(text)
  }

  function Bytes(ms: seq<Message>): string {
    if ms == [] then "" else BytesOf(ms[0]) + Bytes(ms[1..])
  }

  function ValueOf(m: Message): R.RespValue {
    match m
    case Array(args) => R.Array(R.Bulks(args))
    case Stray(text) => R.Bulk(text)
  }

  function Values(ms: seq<Message>): seq<R.RespValue> {
    if ms == [] then [] else [ValueOf(ms[0])] + Values(ms[1..])
  }

  /** The parser gives back one message and leaves what follows it. */
  lemma OneParses(m: Message, rest: string)
    requires Sized(m)
    ensures R.Parse(BytesOf(m) + rest) == R.Ok(ValueOf(m), |BytesOf(m)|)
  {
    match m
    case Array(args) => R.WireRoundTrip(args, rest);
    case Stray(text) => R.BulkRoundTrip(text, rest);
  }

  lemma {:induction false} BytesDrain(ms: seq<Message>)
    requires AllSized(ms)
    ensures B.Drain(Bytes(ms)) == B.Drained(Values(ms), "")
    decreases |ms|
  {
    if ms != [] {
      assert ms[0] in ms;
      OneParses(ms[0], Bytes(ms[1..]));
      B.DrainStep(BytesOf(ms[0]), Bytes(ms[1..]), ValueOf(ms[0]));
      BytesDrain(ms[1..]);
    }
  }

  /** No message is taken before its last byte has arrived. */
  lemma PrefixWaits(m: Message, k: nat)
    requires Sized(m) && k < |BytesOf(m)|
    ensures R.Parse(BytesOf(m)[..k]).Incomplete?
  {
    var p, rest := BytesOf(m)[..k], BytesOf(m)[k..];
    assert p + rest == BytesOf(m) && BytesOf(m) + "" == BytesOf(m);
    OneParses(m, "");
    if !R.Parse(p).Incomplete? {
      R.ParseExtends(p, rest);
    }
  }

  /** Too few bytes wait; another first byte is an error. */
  lemma NoMessage(b: string)
    ensures |b| < 3 ==> R.Parse(b).Incomplete?
    ensures |b| >= 3 && b[0] != '*' && b[0] != '$' ==> R.Parse(b).Err?
  {
  }

  lemma HeaderLine(line: string, rest: string)
    requires '\r' !in line
    ensures R.FindCrlf(line + CRLF + rest, 0) == |line| && (line + CRLF + rest)[..|line|] == line
  {
    R.FindCrlfAfter(line, rest, 0);
  }

  lemma SmallAtoi(n: int)
    requires -I32_MAX - 1 <= n <= I32_MAX
    ensures Atoi(DecSigned(n)) == n
  {
    N.I64OfDec(n, "");
    assert DecSigned(n) + "" == DecSigned(n);
  }

  lemma NegativeLine(mark: char, n: nat) returns (line: string)
    requires 0 < n <= I32_MAX && mark != '\r'
    ensures line == [mark] + "-" + Dec(n) && '\r' !in line && R.HeaderNumber(line) < 0
  {
    line := [mark] + "-" + Dec(n);
    R.DecSignedNoCr(n);
    SmallAtoi(0 - n);
    assert line[1..] == DecSigned(0 - n);
  }

  /** A negative count or length is an error. */
  lemma NegativeHeader(mark: char, n: nat, rest: string)
    requires 0 < n <= I32_MAX && (mark == '*' || mark == '$')
    ensures R.Parse([mark] + "-" + Dec(n) + CRLF + rest).Err?
  {
    var line := NegativeLine(mark, n);
    HeaderLine(line, rest);
  }

  /** A count line without a number is an array of nothing. */
  lemma EmptyHeader(rest: string)
    ensures R.Parse("*" + CRLF + rest) == R.Ok(R.Array([]), 3)
  {
    HeaderLine("*", rest);
    assert "*"[1..] == "";
    assert R.Bulks([]) == [];
  }
}
