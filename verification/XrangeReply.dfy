/** The XRANGE reply read back: a client that takes the nested array apart with the parser's own
    functions gets the entries (app/command.c:140-166, app/resp.c:142-178). */
module XrangeReply {
  import opened Options
  import opened CText
  import opened Sequences
  import R = Resp
  import S = Streams
  import opened Commands

  // ----- Taking a reply apart -----

  function Evens(flat: seq<string>): (r: seq<string>)
    ensures |r| == |flat| / 2 && forall i :: 0 <= i < |r| ==> r[i] == flat[2 * i]
  {
    seq(|flat| / 2, i requires 0 <= i < |flat| / 2 => flat[2 * i])
  }

  function Odds(flat: seq<string>): (r: seq<string>)
    ensures |r| == |flat| / 2 && forall i :: 0 <= i < |r| ==> r[i] == flat[2 * i + 1]
  {
    seq(|flat| / 2, i requires 0 <= i < |flat| / 2 => flat[2 * i + 1])
  }

  datatype Read<T> = Read(value: T, rest: string) | Failed

  /** The number of a header line with the given mark, and what follows the line. */
  function ReadHeader(text: string, mark: char): Read<nat> {
    if text == "" || text[0] != mark then Failed
    else
      match R.ParseHeader(text)
      case Ok(n, c) => Read(n, text[c..])
      case _ => Failed
  }

  /** An entry: an array of two, a bulk string for the ID and a flat array that alternates
      fields and values. */
  function ReadEntry(text: string): (r: Read<S.Entry>) {
    match ReadHeader(text, '*')
    case Failed => Failed
    case Read(two, t) =>
      if two != 2 || t == "" || t[0] != '$' then Failed
      else
        match R.ParseBulk(t)
        case Ok(id, c) =>
          (var u := t[c..];
           if u == "" || u[0] != '*' then Failed
           else
             match R.ParseArray(u)
             case Ok(flat, d) => Read(S.Entry(id, Evens(flat), Odds(flat)), u[d..])
             case _ => Failed)
        case _ => Failed
  }

  function ReadEntries(text: string, n: nat): Read<seq<S.Entry>> {
    if n == 0 then Read([], text)
    else
      match ReadEntry(text)
      case Failed => Failed
      case Read(e, rest) =>
        match ReadEntries(rest, n - 1)
        case Failed => Failed
        case Read(es, rest') => Read([e] + es, rest')
  }

  /** The entries in a whole reply. */
  function ReadReply(text: string): Option<seq<S.Entry>> {
    match ReadHeader(text, '*')
    case Failed => None
    case Read(n, t) =>
      match ReadEntries(t, n)
      case Failed => None
      case Read(es, rest) => if rest == "" then Some(es) else None
  }

  // ----- Reading what was printed -----

  /** Texts without a NUL and with int-range lengths, as many values as fields. */
  predicate Sound(e: S.Entry) {
    && NulFree(e.id) && |e.id| <= I32_MAX
    && |e.fields| == |e.values| && 2 * |e.fields| <= I32_MAX
    && R.AllNulFree(e.fields) && R.AllNulFree(e.values)
    && (forall f :: f in e.fields ==> |f| <= I32_MAX) && (forall v :: v in e.values ==> |v| <= I32_MAX)
  }

  /** Fields and values in turn. */
  function Flat(fields: seq<string>, values: seq<string>): (r: seq<string>)
    requires |fields| == |values|
    ensures |r| == 2 * |fields|
  {
    if fields == [] then [] else [fields[0]] + ([values[0]] + Flat(fields[1..], values[1..]))
  }

  lemma TwoInFront<T>(x: T, y: T, s: seq<T>, i: nat)
    requires i < |s|
    ensures ([x] + ([y] + s))[i + 2] == s[i]
  {
  }

  lemma {:induction false} FlatIndex(fields: seq<string>, values: seq<string>, i: nat)
    requires |fields| == |values| && i < |fields|
    ensures Flat(fields, values)[2 * i] == fields[i] && Flat(fields, values)[2 * i + 1] == values[i]
    decreases i
  {
    if i > 0 {
      var rest := Flat(fields[1..], values[1..]);
      FlatIndex(fields[1..], values[1..], i - 1);
      TwoInFront(fields[0], values[0], rest, 2 * (i - 1));
      TwoInFront(fields[0], values[0], rest, 2 * (i - 1) + 1);
    }
  }

  lemma FlatParts(fields: seq<string>, values: seq<string>)
    requires |fields| == |values|
    ensures Evens(Flat(fields, values)) == fields && Odds(Flat(fields, values)) == values
  {
    forall i | 0 <= i < |fields|
      ensures Flat(fields, values)[2 * i] == fields[i] && Flat(fields, values)[2 * i + 1] == values[i]
    {
      FlatIndex(fields, values, i);
    }
  }

  lemma {:induction false} FieldsAreWire(fields: seq<string>, values: seq<string>)
    requires |fields| == |values| && R.AllNulFree(fields) && R.AllNulFree(values)
    ensures FieldsText(fields, values) == R.BulksWire(Flat(fields, values))
    decreases |fields|
  {
    if fields != [] {
      var rest := Flat(fields[1..], values[1..]);
      FieldsAreWire(fields[1..], values[1..]);
      R.BulkTextNulFree(fields[0]);
      R.BulkTextNulFree(values[0]);
      WireCons(values[0], rest);
      WireCons(fields[0], [values[0]] + rest);
      ConcatAssociative(R.BulkText(fields[0]), R.BulkText(values[0]), R.BulksWire(rest));
    }
  }

  lemma WireCons(s: string, ss: seq<string>)
    ensures R.BulksWire([s] + ss) == R.BulkText(s) + R.BulksWire(ss)
  {
    TailOfCons(s, ss);
  }

  lemma {:induction false} FlatShort(fields: seq<string>, values: seq<string>)
    requires |fields| == |values|
    requires (forall f :: f in fields ==> |f| <= I32_MAX) && (forall v :: v in values ==> |v| <= I32_MAX)
    ensures forall s :: s in Flat(fields, values) ==> |s| <= I32_MAX
    decreases |fields|
  {
    if fields != [] {
      FlatShort(fields[1..], values[1..]);
      assert fields[0] in fields && values[0] in values;
    }
  }

  /** The inner array of an entry parses to its fields and values in turn. */
  lemma InnerReads(e: S.Entry, rest: string)
    requires Sound(e)
    ensures var text := R.ArrayHeader(2 * |e.fields|) + FieldsText(e.fields, e.values);
            R.ParseArray(text + rest) == R.Ok(Flat(e.fields, e.values), |text|)
  {
    FieldsAreWire(e.fields, e.values);
    FlatShort(e.fields, e.values);
    R.FlatArrayRoundTrip(Flat(e.fields, e.values), rest);
  }

  /** One entry's text. */
  function EntryText(e: S.Entry): string
    requires |e.fields| == |e.values|
  {
    "*2\r\n" + CStr(R.BulkText(e.id)) + R.ArrayHeader(2 * |e.fields|) + FieldsText(e.fields, e.values)
  }

  lemma Two(rest: string)
    ensures ReadHeader("*2\r\n" + rest, '*') == Read(2, rest)
  {
    assert Dec(2) == "2";
    assert "*2\r\n" == R.ArrayHeader(2);
    R.HeaderRoundTrip('*', 2, rest);
    CutAt(R.ArrayHeader(2), rest);
  }

  lemma CutAt<T>(a: seq<T>, b: seq<T>)
    ensures (a + b)[|a|..] == b
    ensures a != [] ==> (a + b)[0] == a[0]
  {
  }

  /** The pieces of an entry, each where the one before it ends. */
  lemma EntryFrom(text: string, t: string, u: string, e: S.Entry, rest: string, c: nat, d: nat)
    requires ReadHeader(text, '*') == Read(2, t) && t != "" && t[0] == '$'
    requires R.ParseBulk(t) == R.Ok(e.id, c) && t[c..] == u && u != "" && u[0] == '*'
    requires |e.fields| == |e.values| && R.ParseArray(u) == R.Ok(Flat(e.fields, e.values), d) && u[d..] == rest
    ensures ReadEntry(text) == Read(e, rest)
  {
    FlatParts(e.fields, e.values);
  }

  /** The printed entry reads back and leaves exactly what follows it. */
  lemma EntryReads(e: S.Entry, rest: string)
    requires Sound(e)
    ensures ReadEntry(EntryText(e) + rest) == Read(e, rest)
  {
    var b, inner := R.BulkText(e.id), R.ArrayHeader(2 * |e.fields|) + FieldsText(e.fields, e.values);
    R.BulkTextNulFree(e.id);
    EntryPieces(e, rest);
    Two(b + (inner + rest));
    R.BulkRoundTrip(e.id, inner + rest);
    CutAt(b, inner + rest);
    InnerReads(e, rest);
    CutAt(inner, rest);
    EntryFrom("*2\r\n" + (b + (inner + rest)), b + (inner + rest), inner + rest, e, rest, |b|, |inner|);
  }

  lemma EntryPieces(e: S.Entry, rest: string)
    requires |e.fields| == |e.values|
    ensures EntryText(e) + rest
         == "*2\r\n" + (CStr(R.BulkText(e.id))
                        + (R.ArrayHeader(2 * |e.fields|) + FieldsText(e.fields, e.values) + rest))
  {
    FourPieces("*2\r\n", CStr(R.BulkText(e.id)), R.ArrayHeader(2 * |e.fields|), FieldsText(e.fields, e.values), rest);
  }

  lemma FourPieces<T>(a: seq<T>, b: seq<T>, c: seq<T>, d: seq<T>, e: seq<T>)
    ensures a + b + c + d + e == a + (b + (c + d + e))
  {
  }

  lemma EntriesCons(es: seq<S.Entry>)
    requires es != [] && |es[0].fields| == |es[0].values|
    ensures EntriesText(es) == EntryText(es[0]) + EntriesText(es[1..])
  {
    assert |es[0].fields| * 2 == 2 * |es[0].fields|;
  }

  lemma ReadStep(text: string, es: seq<S.Entry>, tail: string, rest: string)
    requires es != [] && ReadEntry(text) == Read(es[0], tail) && ReadEntries(tail, |es| - 1) == Read(es[1..], rest)
    ensures ReadEntries(text, |es|) == Read(es, rest)
  {
    assert [es[0]] + es[1..] == es;
  }

  /** The first entry's text, then that of the others. */
  lemma EntriesSplit(es: seq<S.Entry>, rest: string)
    requires es != [] && |es[0].fields| == |es[0].values|
    ensures EntriesText(es) + rest == EntryText(es[0]) + (EntriesText(es[1..]) + rest)
  {
    EntriesCons(es);
    ConcatAssociative(EntryText(es[0]), EntriesText(es[1..]), rest);
  }

  lemma {:induction false} EntriesRead(es: seq<S.Entry>, rest: string)
    requires forall e :: e in es ==> Sound(e)
    ensures ReadEntries(EntriesText(es) + rest, |es|) == Read(es, rest)
    decreases |es|
  {
    if es == [] {
      assert "" + rest == rest;
    } else {
      var e, tail := es[0], EntriesText(es[1..]) + rest;
      assert e in es;
      EntriesSplit(es, rest);
      EntryReads(e, tail);
      EntriesRead(es[1..], rest);
      ReadStep(EntriesText(es) + rest, es, tail, rest);
    }
  }

  lemma HeaderReads(n: nat, rest: string)
    requires n <= I32_MAX
    ensures ReadHeader(R.ArrayHeader(n) + rest, '*') == Read(n, rest)
  {
    R.HeaderRoundTrip('*', n, rest);
    CutAt(R.ArrayHeader(n), rest);
  }

  /** Reading the XRANGE reply back gives the entries: IDs, fields and values, in order. */
  lemma ReplyReads(es: seq<S.Entry>)
    requires |es| <= I32_MAX && forall e :: e in es ==> Sound(e)
    ensures ReadReply(XrangeText(es)) == Some(es)
  {
    HeaderReads(|es|, EntriesText(es));
    EntriesRead(es, "");
    assert EntriesText(es) + "" == EntriesText(es);
  }
}
