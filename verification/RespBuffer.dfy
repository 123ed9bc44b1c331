/** The growing receive buffer of app/resp.c, the drain loop over it, and the array printer. */
module RespBuffers {
  import opened CText
  import opened Resp

  const RESP_BUFFER_SIZE: nat := 4096

  class RespBuffer {
    var buffer: array<char>
    var size: nat
    var used: nat

    ghost predicate Valid()
      reads this
    {
      0 < size == buffer.Length && used <= size
    }

    function Contents(): (s: string)
      requires Valid()
      reads this, buffer
    {
      buffer[..used]
    }

    constructor ()
      ensures Valid() && Contents() == "" && fresh(buffer)
      ensures size == RESP_BUFFER_SIZE
    {
      buffer := new char[RESP_BUFFER_SIZE];
      size := RESP_BUFFER_SIZE;
      used := 0;
    }

    /** appendRespBuffer: doubles the allocation until the data fits, then copies it. */
    method Append(data: string)
      requires Valid()
      modifies this, buffer
      ensures Valid() && Contents() == old(Contents()) + data
      ensures buffer == old(buffer) || fresh(buffer)
      ensures old(size) <= size && (old(used) + |data| <= old(size) ==> size == old(size))
    {
      if used + |data| > size {
        var newSize := size * 2;
        while newSize < used + |data|
          invariant newSize >= 2 * size
          decreases used + |data| - newSize
        {
          newSize := newSize * 2;
        }
        var newBuffer := new char[newSize];
        forall i | 0 <= i < used {
          newBuffer[i] := buffer[i];
        }
        assert newBuffer[..used] == buffer[..used];
        buffer := newBuffer;
        size := newSize;
      }
      ghost var before := Contents();
      forall i | 0 <= i < |data| {
        buffer[used + i] := data[i];
      }
      used := used + |data|;
      assert Contents() == before + data;
    }

    /** parseResp: on RESP_OK the consumed bytes are moved out of the buffer. */
    method ParseNext() returns (r: ParseResult<RespValue>)
      requires Valid()
      modifies this`used, buffer
      ensures Valid() && r == Parse(old(Contents()))
      ensures Contents() == if r.Ok? then old(Contents())[r.consumed..] else old(Contents())
    {
      r := ParseBytes(buffer[..used]);
      if r.Ok? {
        Shift(r.consumed);
      }
    }

    /** The memmove of parseResp. */
    method Shift(consumed: nat)
      requires Valid() && consumed <= used
      modifies this`used, buffer
      ensures Valid() && Contents() == old(Contents())[consumed..]
    {
      forall i | 0 <= i < used - consumed {
        buffer[i] := buffer[i + consumed];
      }
      used := used - consumed;
    }
  }

  method ParseBytes(data: string) returns (r: ParseResult<RespValue>)
    ensures r == Parse(data)
  {
    if |data| < 3 {
      return Incomplete;
    }
    if data[0] == '*' {
      var a := ParseArrayLoop(data);
      r := match a case Ok(ss, c) => Ok(Array(Bulks(ss)), c) case Err => Err case Incomplete => Incomplete;
    } else if data[0] == '$' {
      r := match ParseBulk(data) case Ok(s, c) => Ok(Bulk(s), c) case Err => Err case Incomplete => Incomplete;
    } else {
      return Err;
    }
  }

  /** parseArray: one header, then a loop over the elements. */
  method ParseArrayLoop(data: string) returns (r: ParseResult<seq<string>>)
    ensures r == ParseArray(data)
  {
    var header := ParseHeader(data);
    if header.Incomplete? {
      return Incomplete;
    } else if header.Err? {
      return Err;
    }
    r := ParseElementsLoop(data[header.consumed..], header.value);
    if r.Ok? {
      r := Ok(r.value, header.consumed + r.consumed);
    }
  }

  method ParseElementsLoop(data: string, arrayLen: nat) returns (r: ParseResult<seq<string>>)
    ensures r == ParseElements(data, arrayLen)
  {
    var rest, consumed: nat := data, 0;
    var elements: seq<string> := [];
    var i := 0;
    ghost var all := ParseElements(data, arrayLen);
    ContinueStart(all);
    while i < arrayLen
      invariant i <= arrayLen
      invariant all == Continue(elements, consumed, ParseElements(rest, arrayLen - i))
    {
      var e := ParseBulk(rest);
      ContinueStep(elements, consumed, rest, arrayLen - i);
      if e.Incomplete? {
        return Incomplete;
      } else if e.Err? {
        return Err;
      }
      rest := rest[e.consumed..];
      consumed := consumed + e.consumed;
      elements := elements + [e.value];
      i := i + 1;
    }
    ContinueDone(elements, consumed, rest);
    return Ok(elements, consumed);
  }

  /** The result of an array parse that has read `done` so far and gets `more` from the rest. */
  ghost function Continue(done: seq<string>, consumed: nat, more: ParseResult<seq<string>>): ParseResult<seq<string>> {
    match more
    case Incomplete => Incomplete
    case Err => Err
    case Ok(ss, c) => Ok(done + ss, consumed + c)
  }

  lemma ContinueStep(done: seq<string>, consumed: nat, rest: string, n: nat)
    requires n > 0
    ensures Continue(done, consumed, ParseElements(rest, n))
         == match ParseBulk(rest)
            case Incomplete => Incomplete
            case Err => Err
            case Ok(s, c) => Continue(done + [s], consumed + c, ParseElements(rest[c..], n - 1))
  {
    if ParseBulk(rest).Ok? {
      var Ok(s, c) := ParseBulk(rest);
      var more := ParseElements(rest[c..], n - 1);
      if more.Ok? {
        assert done + ([s] + more.value) == done + [s] + more.value;
      }
    }
  }

  lemma ContinueStart(all: ParseResult<seq<string>>)
    ensures Continue([], 0, all) == all
  {
    assert all.Ok? ==> [] + all.value == all.value;
  }

  lemma ContinueDone(done: seq<string>, consumed: nat, rest: string)
    ensures Continue(done, consumed, ParseElements(rest, 0)) == Ok(done, consumed)
  {
    assert done + [] == done;
  }

  /** createRespArrayFromElements: header and elements appended to a fresh buffer. */
  method PrintArray(es: seq<RespValue>) returns (text: string)
    ensures text == ArrayText(es)
    decreases es, 1
  {
    var buffer := new RespBuffer();
    buffer.Append(ArrayHeader(|es|));
    assert buffer.Contents() == ArrayHeader(|es|);
    var i := 0;
    while i < |es|
      invariant i <= |es|
      invariant buffer.Valid() && fresh(buffer) && fresh(buffer.buffer)
      invariant buffer.Contents() + ElementsText(es[i..]) == ArrayHeader(|es|) + ElementsText(es)
    {
      var elementStr := PrintElement(es[i]);
      ghost var before := buffer.Contents();
      buffer.Append(CStr(elementStr));
      AppendElement(before, es, i);
      i := i + 1;
    }
    text := CStr(buffer.Contents());
    assert buffer.Contents() + "" == buffer.Contents();
  }

  lemma AppendElement(before: string, es: seq<RespValue>, i: nat)
    requires i < |es|
    ensures before + ElementsText(es[i..]) == before + ElementText(es[i]) + ElementsText(es[i + 1..])
  {
    assert es[i..][1..] == es[i + 1..];
  }

  method PrintElement(v: RespValue) returns (text: string)
    ensures CStr(text) == ElementText(v)
    decreases v, 0
  {
    ElementTextNulFree(v);
    match v {
      case Simple(s) => text := "+" + CStr(s) + CRLF;
      case Integer(n) => text := ":" + DecSigned(n) + CRLF;
      case Array(sub) => text := PrintArray(sub);
      case Bulk(s) => text := BulkText(s);
      case Error(s) => text := "-" + CStr(s) + CRLF;
    }
  }

  // ----- Draining and chunking -----

  datatype Drained = Drained(values: seq<RespValue>, rest: string)

  /** All values parseResp yields before it answers something other than RESP_OK,
      and the bytes it leaves in the buffer. */
  function Drain(b: string): Drained
    decreases |b|
  {
    match Parse(b)
    case Ok(v, c) => var d := Drain(b[c..]); Drained([v] + d.values, d.rest)
    case _ => Drained([], b)
  }

  lemma {:induction false} DrainRestIsStuck(b: string)
    ensures !Parse(Drain(b).rest).Ok?
    decreases |b|
  {
    if Parse(b).Ok? {
      DrainRestIsStuck(b[Parse(b).consumed..]);
    }
  }

  /** Draining, appending and draining again is the same as appending first. */
  lemma {:induction false} DrainExtends(b: string, t: string)
    ensures Drain(b + t) == Then(Drain(b).values, Drain(Drain(b).rest + t))
    decreases |b|
  {
    if Parse(b).Ok? {
      var Ok(v, c) := Parse(b);
      ParseExtends(b, t);
      assert (b + t)[c..] == b[c..] + t;
      DrainExtends(b[c..], t);
      var d := Drain(b[c..]);
      var e := Drain(d.rest + t);
      assert [v] + (d.values + e.values) == ([v] + d.values) + e.values;
    } else {
      assert [] + Drain(b + t).values == Drain(b + t).values;
    }
  }

  function Then(first: seq<RespValue>, d: Drained): Drained {
    Drained(first + d.values, d.rest)
  }

  function Concat(chunks: seq<string>): string {
    if chunks == [] then "" else chunks[0] + Concat(chunks[1..])
  }

  /** The receive loop of handleClientData: append each chunk, then drain. */
  function Feed(buffered: string, chunks: seq<string>): Drained
    decreases |chunks|
  {
    if chunks == [] then Drained([], buffered)
    else
      var d := Drain(buffered + chunks[0]);
      Then(d.values, Feed(d.rest, chunks[1..]))
  }

  lemma {:induction false} FeedIsDrain(buffered: string, chunks: seq<string>)
    requires !Parse(buffered).Ok?
    ensures Feed(buffered, chunks) == Drain(buffered + Concat(chunks))
    decreases |chunks|
  {
    if chunks == [] {
      assert buffered + "" == buffered;
    } else {
      FeedStep(buffered, chunks);
      DrainRestIsStuck(buffered + chunks[0]);
      FeedIsDrain(Drain(buffered + chunks[0]).rest, chunks[1..]);
    }
  }

  lemma FeedStep(buffered: string, chunks: seq<string>)
    requires chunks != []
    ensures var d := Drain(buffered + chunks[0]);
            Drain(buffered + Concat(chunks)) == Then(d.values, Drain(d.rest + Concat(chunks[1..])))
  {
    var rest := Concat(chunks[1..]);
    assert buffered + Concat(chunks) == buffered + chunks[0] + rest;
    DrainExtends(buffered + chunks[0], rest);
  }

  /** However a byte stream is split, the values parsed and the bytes left over are
      those of the whole stream fed at once. */
  lemma ChunkingDoesNotMatter(chunks: seq<string>, others: seq<string>)
    requires Concat(chunks) == Concat(others)
    ensures Feed("", chunks) == Feed("", others) == Drain(Concat(chunks))
  {
    FeedIsDrain("", chunks);
    FeedIsDrain("", others);
    assert "" + Concat(chunks) == Concat(chunks);
  }

  /** A client whose buffer once answers RESP_ERR never gets another command through. */
  lemma ErrorIsFinal(buffered: string, chunks: seq<string>)
    requires Parse(buffered).Err?
    ensures Feed(buffered, chunks) == Drained([], buffered + Concat(chunks))
  {
    FeedIsDrain(buffered, chunks);
    ParseExtends(buffered, Concat(chunks));
  }

  // ----- A stream of printed commands -----

  function Printed(cmds: seq<seq<string>>): string {
    if cmds == [] then "" else ArrayText(Bulks(cmds[0])) + Printed(cmds[1..])
  }

  function Arrays(cmds: seq<seq<string>>): (vs: seq<RespValue>)
    ensures |vs| == |cmds|
    ensures forall i :: 0 <= i < |cmds| ==> vs[i] == Array(Bulks(cmds[i]))
  {
    seq(|cmds|, i requires 0 <= i < |cmds| => Array(Bulks(cmds[i])))
  }

  lemma DrainStep(first: string, rest: string, v: RespValue)
    requires Parse(first + rest) == Ok(v, |first|)
    ensures Drain(first + rest) == Then([v], Drain(rest))
  {
    assert (first + rest)[|first|..] == rest;
  }

  lemma {:induction false} PrintedDecodes(cmds: seq<seq<string>>)
    requires forall c :: c in cmds ==> Transmissible(c)
    ensures Drain(Printed(cmds)) == Drained(Arrays(cmds), "")
    decreases |cmds|
  {
    if cmds != [] {
      PrintedDecodes(cmds[1..]);
      DrainPrinted(cmds[0], Printed(cmds[1..]));
      ArraysCons(cmds);
    }
  }

  lemma ArraysCons(cmds: seq<seq<string>>)
    requires cmds != []
    ensures Arrays(cmds) == [Array(Bulks(cmds[0]))] + Arrays(cmds[1..])
  {
  }

  lemma DrainPrinted(cmd: seq<string>, rest: string)
    requires Transmissible(cmd)
    ensures Drain(ArrayText(Bulks(cmd)) + rest) == Then([Array(Bulks(cmd))], Drain(rest))
  {
    ArrayRoundTrip(cmd, rest);
    DrainStep(ArrayText(Bulks(cmd)), rest, Array(Bulks(cmd)));
  }

  lemma {:induction false} PrintedNulFree(cmds: seq<seq<string>>)
    ensures NulFree(Printed(cmds))
  {
    if cmds != [] {
      ElementTextNulFree(Array(Bulks(cmds[0])));
      PrintedNulFree(cmds[1..]);
    }
  }

  predicate WellFormed(v: RespValue) {
    v.Array? ==> forall i :: 0 <= i < |v.elements| ==>
                   v.elements[i].Bulk? && NulFree(v.elements[i].str) && |v.elements[i].str| <= I32_MAX
                   && |v.elements| <= I32_MAX
  }

  lemma ParsedWellFormed(b: string)
    requires NulFree(b) && Parse(b).Ok?
    ensures WellFormed(Parse(b).value)
  {
    assert NulFreeTo(b, Parse(b).consumed);
    if b[0] == '*' {
      ArrayFromInput(b);
    }
  }

  lemma {:induction false} DrainedWellFormed(b: string)
    requires NulFree(b)
    ensures forall v :: v in Drain(b).values ==> WellFormed(v)
    decreases |b|
  {
    if Parse(b).Ok? {
      ParsedWellFormed(b);
      DrainedWellFormed(b[Parse(b).consumed..]);
    }
  }

  lemma WellFormedIsTransmissible(c: seq<string>)
    requires c != [] && WellFormed(Array(Bulks(c)))
    ensures Transmissible(c)
  {
    var v := Array(Bulks(c));
    assert v.elements[0].Bulk?;
    forall s | s in c ensures NulFree(s) && |s| <= I32_MAX {
      var j :| 0 <= j < |c| && c[j] == s;
      assert v.elements[j] == Bulk(s);
    }
  }

  /** The bytes printed for a list of commands, however they arrive, decode to exactly
      those commands if and only if every command is NUL-free with int-range lengths. */
  lemma PrintedDecodesIff(cmds: seq<seq<string>>, chunks: seq<string>)
    requires Concat(chunks) == Printed(cmds)
    ensures Feed("", chunks) == Drained(Arrays(cmds), "")
       <==> forall c :: c in cmds ==> Transmissible(c)
  {
    ChunkingDoesNotMatter(chunks, chunks);
    if forall c :: c in cmds ==> Transmissible(c) {
      PrintedDecodes(cmds);
    } else if Drain(Printed(cmds)) == Drained(Arrays(cmds), "") {
      DecodedIsTransmissible(cmds);
    }
  }

  lemma DecodedIsTransmissible(cmds: seq<seq<string>>)
    requires Drain(Printed(cmds)).values == Arrays(cmds)
    ensures forall c :: c in cmds ==> Transmissible(c)
  {
    PrintedNulFree(cmds);
    DrainedWellFormed(Printed(cmds));
    forall c | c in cmds && c != [] ensures Transmissible(c) {
      var i :| 0 <= i < |cmds| && cmds[i] == c;
      assert Arrays(cmds)[i] in Drain(Printed(cmds)).values;
      WellFormedIsTransmissible(c);
    }
  }
}
