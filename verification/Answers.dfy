/** What a client reads in the replies, and what its arguments mean, from command line to
    parsed answer (app/command.c:19-166, app/command.c:306-345). */
module Answers {
  import opened Options
  import opened CText
  import N = CommandNames
  import Nu = Numerals
  import R = Resp
  import opened Store
  import SR = StoreRefinement
  import S = Streams
  import I = StreamIDs
  import X = XrangeReply
  import opened Commands
  import L = CommandLaws
  import ER = ExecReplies

  // ----- Texts -----

  predicate Carried(v: string) {
    NulFree(v) && |v| <= I32_MAX
  }

  /** A bulk reply reads back as its argument. */
  lemma BulkReads(v: string)
    requires Carried(v)
    ensures BulkReply(v).Text? && R.ParseResponse(BulkReply(v).s) == Some(R.Bulk(v))
  {
    R.ParsePrintedBulk(v);
  }

  /** An error or a status reads back as its message. */
  lemma MessageReads(m: string)
    requires NulFree(m) && R.NoCrlf(m)
    ensures ErrorText(m).Text? && R.ParseResponse(ErrorText(m).s) == Some(R.Error(m))
    ensures SimpleText(m).Text? && R.ParseResponse(SimpleText(m).s) == Some(R.Simple(m))
  {
    R.ParsePrintedLine('-', m);
    R.ParsePrintedLine('+', m);
    assert "-" + m + CRLF == ['-'] + m + CRLF && "+" + m + CRLF == ['+'] + m + CRLF;
  }

  // ----- GET, ECHO and SET -----

  /** Outside a transaction a command goes to its handler. */
  lemma Handled(s: Server, cmd: Command, clock: Clock, k: Kind)
    requires Clean(s) && !s.inTx && Classify(cmd) == Accepted(k) && !IsTransactional(k)
    ensures match RunHandler(s.store, k, cmd, clock)
            case Crash => Execute(s, cmd, [clock]).Crashed?
            case Ran(st, reply) =>
              Execute(s, cmd, [clock])
              == Next(s.(store := st, log := if Propagates(k, s.isMaster) then s.log + [cmd] else s.log),
                      Answered(k, s.isMaster, reply))
  {
  }

  /** GET answers the value itself, or a null bulk string. */
  lemma GetAnswers(s: Server, cmd: Command, clock: Clock)
    requires Clean(s) && !s.inTx && |cmd| == 2 && N.Spelled(cmd[0], "GET")
    ensures var v := Get(s.store, CStr(cmd[1]), clock.ms);
            match Execute(s, cmd, [clock])
            case Crashed => false
            case Next(s', reply) =>
              && s' == s && reply.Text?
              && (v.None? ==> reply.s == "$-1\r\n")
              && (v.Some? && Carried(v.value) ==> R.ParseResponse(reply.s) == Some(R.Bulk(v.value)))
  {
    N.GetIsGet(cmd);
    Handled(s, cmd, clock, KGet);
    var v := Get(s.store, CStr(cmd[1]), clock.ms);
    if v.Some? && Carried(v.value) {
      BulkReads(v.value);
    }
  }

  /** ECHO answers its argument. */
  lemma EchoAnswers(s: Server, cmd: Command, clock: Clock)
    requires Clean(s) && !s.inTx && |cmd| == 2 && N.Spelled(cmd[0], "ECHO") && Carried(cmd[1])
    ensures match Execute(s, cmd, [clock])
            case Crashed => false
            case Next(s', reply) => s' == s && reply.Text? && R.ParseResponse(reply.s) == Some(R.Bulk(cmd[1]))
  {
    N.EchoIsEcho(cmd);
    Handled(s, cmd, clock, KEcho);
    BulkReads(cmd[1]);
  }

  /** The milliseconds a SET asks for: what follows "px" in any case, if that is positive. */
  lemma PxMeans(cmd: Command, n: int)
    ensures |cmd| < 5 ==> PxOption(cmd) == 0
    ensures |cmd| >= 5 && !N.Spelled(CStr(cmd[3]), "PX") ==> PxOption(cmd) == 0
    ensures |cmd| >= 5 && N.Spelled(CStr(cmd[3]), "PX") && cmd[4] == DecSigned(n) ==>
              PxOption(cmd) == if n <= 0 then 0 else if n <= I64_MAX then n else I64_MAX
  {
    if |cmd| >= 5 {
      N.SpelledIff(CStr(cmd[3]), "PX");
      R.DecSignedNulFree(n);
      Nu.I64OfDec(n, "");
      assert DecSigned(n) + "" == DecSigned(n);
    }
  }

  lemma SetStep(s: Server, cmd: Command, clock: Clock)
    requires Clean(s) && !s.inTx && 3 <= |cmd| <= 5 && N.Spelled(cmd[0], "SET")
    ensures Execute(s, cmd, [clock]).Next?
    ensures var r := Execute(s, cmd, [clock]);
            && r.reply == Text("+OK\r\n") && !r.server.inTx
            && r.server.store == SetStore(s.store, CStr(cmd[1]), cmd[2], PxOption(cmd), clock)
  {
    N.SetIsSet(cmd);
    Handled(s, cmd, clock, KSet);
    assert "+" + "OK" + CRLF == "+OK\r\n";
  }

  /** SET answers OK, and a GET of the key then answers the value as long as it is readable. */
  lemma SetThenGetAnswers(s: Server, put: Command, write: Clock, query: Command, read: Clock)
    requires Clean(s) && !s.inTx && WellFormed(s.store)
    requires 3 <= |put| <= 5 && N.Spelled(put[0], "SET") && Carried(put[2])
    requires |query| == 2 && N.Spelled(query[0], "GET") && CStr(query[1]) == CStr(put[1])
    requires L.Readable(Abs(s.store.table), CStr(put[1]), PxOption(put), write, read.ms)
    ensures var w := Execute(s, put, [write]);
            && w.Next? && w.reply == Text("+OK\r\n")
            && var r := Execute(w.server, query, [read]);
               r.Next? && r.reply.Text? && R.ParseResponse(r.reply.s) == Some(R.Bulk(put[2]))
  {
    SetStep(s, put, write);
    L.SetThenGet(s.store, CStr(put[1]), put[2], PxOption(put), write, read.ms, CStr(put[1]));
    GetAnswers(Execute(s, put, [write]).server, query, read);
  }

  // ----- INCR -----

  lemma {:induction false} CStrEnd(v: string, e: nat)
    requires e <= |CStr(v)|
    ensures e == |CStr(v)| <==> e == |v| || v[e] == '\0'
  {
    if e < |CStr(v)| {
      assert v[e] == CStr(v)[e] && CStr(v)[e] in CStr(v);
    }
  }

  lemma ScansOn(c: string, v: string, i: nat, d: nat, j: nat)
    requires c <= v && (|c| < |v| ==> v[|c|] == '\0') && Nu.Scans(c, i, d, j)
    ensures Nu.Scans(v, i, d, j) && v[d..j] == c[d..j] && (d > i ==> v[i] == c[i])
  {
    assert forall k :: 0 <= k < |c| ==> v[k] == c[k];
  }

  /** A number is read from the part of the value before its first NUL. */
  lemma ScanIsCStr(v: string)
    ensures ScanNumber(v) == ScanNumber(CStr(v))
  {
    var i, d, j := Nu.ScansSomehow(CStr(v));
    ScansOn(CStr(v), v, i, d, j);
    Nu.ScanNumeral(CStr(v), i, d, j);
    Nu.ScanNumeral(v, i, d, j);
  }

  /** strtoll ends at the NUL exactly for a numeral or an empty text. */
  lemma ReadsAsNumberIff(v: string)
    ensures ReadsAsNumber(v) <==> CStr(v) == "" || Nu.Numeral(CStr(v))
  {
    ScanIsCStr(v);
    Nu.ReadsAllIff(CStr(v));
    CStrEnd(v, ScanEnd(v));
  }

  /** INCR refuses exactly the live values that are no numerals, and then changes nothing. */
  lemma IncrRefusesIff(st: StoreState, cmd: Command, clock: Clock)
    requires |st.table| > 0 && |cmd| >= 2
    ensures var v := Get(st, CStr(cmd[1]), clock.ms);
            HandleIncr(st, cmd, clock) == Ran(st, Text("-" + ("ERR value is not an " + "integer or out of range") + "\r\n"))
            <==> v.Some? && CStr(v.value) != "" && !Nu.Numeral(CStr(v.value))
  {
    var v := Get(st, CStr(cmd[1]), clock.ms);
    IncrErrorText();
    if v.Some? {
      ReadsAsNumberIff(v.value);
      var n := DecSigned(StrToI64(v.value) + 1);
      assert (":" + n + CRLF)[0] == ':';
    }
    assert ":1\r\n"[0] == ':';
  }

  lemma IncrErrorText()
    ensures ErrorText(NOT_INTEGER) == Text("-" + ("ERR value is not an " + "integer or out of range") + "\r\n")
  {
  }

  // ----- XADD and XRANGE -----

  lemma MiddlePart<T>(a: seq<T>, b: seq<T>, c: seq<T>, j: nat)
    requires j < |b|
    ensures (a + b + c)[|a| + j] == b[j]
  {
  }

  lemma XaddArgument(head: Command, fields: seq<string>, values: seq<string>, extra: Command, i: nat)
    requires |head| == 3 && |fields| == |values| && i < |fields|
    ensures var cmd := head + X.Flat(fields, values) + extra; cmd[3 + i * 2] == fields[i] && cmd[4 + i * 2] == values[i]
  {
    X.FlatIndex(fields, values, i);
    MiddlePart(head, X.Flat(fields, values), extra, 2 * i);
    MiddlePart(head, X.Flat(fields, values), extra, 2 * i + 1);
  }

  lemma CallIs(cmd: Command, fields: seq<string>, values: seq<string>, clock: Clock)
    requires |fields| == |values| > 0 && 0 <= |cmd| - (3 + 2 * |fields|) <= 1
    requires R.AllNulFree(fields) && R.AllNulFree(values)
    requires forall i :: 0 <= i < |fields| ==> cmd[3 + i * 2] == fields[i] && cmd[4 + i * 2] == values[i]
    ensures XaddCall(cmd, clock) == S.Call(CStr(cmd[2]), fields, values, clock.ms)
  {
    var call := XaddCall(cmd, clock);
    forall i | 0 <= i < |fields| ensures call.fields[i] == fields[i] && call.values[i] == values[i] {
      assert fields[i] in fields && values[i] in values;
    }
    assert call.fields == fields && call.values == values;
  }

  /** The arguments of XADD after the ID are its fields and values in turn; one left over is
      dropped. */
  lemma XaddArguments(head: Command, fields: seq<string>, values: seq<string>, extra: Command, clock: Clock)
    requires |head| == 3 && |fields| == |values| > 0 && |extra| <= 1
    requires R.AllNulFree(fields) && R.AllNulFree(values)
    ensures |head + X.Flat(fields, values) + extra| >= 4
    ensures XaddCall(head + X.Flat(fields, values) + extra, clock) == S.Call(CStr(head[2]), fields, values, clock.ms)
  {
    var cmd: Command := head + X.Flat(fields, values) + extra;
    forall i | 0 <= i < |fields| ensures cmd[3 + i * 2] == fields[i] && cmd[4 + i * 2] == values[i] {
      XaddArgument(head, fields, values, extra, i);
    }
    CallIs(cmd, fields, values, clock);
  }

  /** XADD answers the new entry's ID, or the reason why there is none. */
  lemma XaddAnswers(es: seq<S.Entry>, call: S.Call)
    requires call.now < U64 && !S.AddOutcome(es, call).Unparseable?
    ensures XaddReply(S.AddOutcome(es, call)).Some? && XaddReply(S.AddOutcome(es, call)).value.Text?
    ensures var s := XaddReply(S.AddOutcome(es, call)).value.s;
            match S.AddOutcome(es, call)
            case Added(id) => S.Add(es, call)[|es|].id == id && R.ParseResponse(s) == Some(R.Bulk(id))
            case Rejected(m) =>
              R.ParseResponse(s) == Some(R.Error(if m == S.ERR_ZERO then S.ZERO_ID_TEXT else S.SMALL_ID_TEXT))
            case Unparseable => true
  {
    match S.AddOutcome(es, call)
    case Added(id) =>
      IDCarried(es, call);
      BulkReads(id);
    case Rejected(m) =>
      RejectionReads(m);
  }

  lemma IDCarried(es: seq<S.Entry>, call: S.Call)
    requires call.now < U64 && S.AddOutcome(es, call).Added?
    ensures Carried(S.AddOutcome(es, call).id)
  {
    var id := S.ChosenID(es, S.ParseID(call.id, call.now).value, call.now);
    S.GeneratedText(id);
    R.DecSignedNulFree(id.ms);
    R.DecSignedNulFree(S.Stored(id).seqNo);
  }

  lemma RejectionReads(m: string)
    requires m == S.ERR_ZERO || m == S.ERR_SMALL
    ensures m != "" && R.ParseResponse(ErrorText(m[1..]).s)
                       == Some(R.Error(if m == S.ERR_ZERO then S.ZERO_ID_TEXT else S.SMALL_ID_TEXT))
  {
    assert S.ERR_ZERO[1..] == S.ZERO_ID_TEXT && S.ERR_SMALL[1..] == S.SMALL_ID_TEXT;
    ER.ZeroTextPrintable();
    ER.SmallTextPrintable();
    ER.PrintableText(m[1..]);
    MessageReads(m[1..]);
  }

  /** An XADD command: its name, key and ID, then fields and values in turn. */
  function XaddCommand(name: string, key: string, id: string, fields: seq<string>, values: seq<string>): Command
    requires |fields| == |values|
  {
    [name, key, id] + X.Flat(fields, values) + []
  }

  lemma XaddPlaces(name: string, key: string, id: string, fields: seq<string>, values: seq<string>)
    requires |fields| == |values| > 0
    ensures var cmd := XaddCommand(name, key, id, fields, values);
            |cmd| >= 5 && cmd[0] == name && cmd[1] == key && cmd[2] == id
  {
  }

  lemma XaddHandled(st: StoreState, cmd: Command, clock: Clock, key: string, call: S.Call)
    requires |st.table| > 0 && |cmd| >= 4 && key == CStr(cmd[1]) && call == XaddCall(cmd, clock)
    requires StreamAddDefined(st, key)
    ensures HandleXadd(st, cmd, clock)
         == match XaddReply(S.AddOutcome(StreamOf(st, key), call))
            case None => Crash
            case Some(reply) => Ran(StreamAdd(st, key, call), reply)
  {
  }

  lemma XaddExecute(s: Server, cmd: Command, clock: Clock, key: string, call: S.Call)
    requires Clean(s) && !s.inTx && |cmd| >= 4 && N.Spelled(cmd[0], "XADD")
    requires key == CStr(cmd[1]) && call == XaddCall(cmd, clock) && StreamAddDefined(s.store, key)
    ensures match XaddReply(S.AddOutcome(StreamOf(s.store, key), call))
            case None => S.AddOutcome(StreamOf(s.store, key), call).Unparseable? && Execute(s, cmd, [clock]).Crashed?
            case Some(reply) =>
              Execute(s, cmd, [clock])
              == Next(s.(store := StreamAdd(s.store, key, call), log := s.log + [cmd]), reply)
  {
    N.XaddIsXadd(cmd);
    Handled(s, cmd, clock, KXadd);
    XaddHandled(s.store, cmd, clock, key, call);
  }

  /** XADD runs streamAdd on the key's stream with the fields and values it was given, answers
      the ID or the reason, and is propagated either way; a text that is no ID crashes. */
  lemma XaddStep(s: Server, name: string, key: string, id: string, fields: seq<string>, values: seq<string>, clock: Clock)
    requires Clean(s) && !s.inTx && N.Spelled(name, "XADD") && |fields| == |values| > 0
    requires R.AllNulFree(fields) && R.AllNulFree(values) && StreamAddDefined(s.store, CStr(key))
    ensures var cmd := XaddCommand(name, key, id, fields, values);
            var call, es := S.Call(CStr(id), fields, values, clock.ms), StreamOf(s.store, CStr(key));
            match XaddReply(S.AddOutcome(es, call))
            case None => S.AddOutcome(es, call).Unparseable? && Execute(s, cmd, [clock]).Crashed?
            case Some(reply) =>
              Execute(s, cmd, [clock])
              == Next(s.(store := StreamAdd(s.store, CStr(key), call), log := s.log + [cmd]), reply)
  {
    var cmd := XaddCommand(name, key, id, fields, values);
    XaddArguments([name, key, id], fields, values, [], clock);
    XaddPlaces(name, key, id, fields, values);
    XaddExecute(s, cmd, clock, CStr(key), S.Call(CStr(id), fields, values, clock.ms));
  }

  lemma XrangeStep(s: Server, cmd: Command, clock: Clock, es: seq<S.Entry>)
    requires Clean(s) && !s.inTx && |cmd| == 4 && N.Spelled(cmd[0], "XRANGE")
    requires GetStream(s.store, CStr(cmd[1])) == Some(es)
    ensures Execute(s, cmd, [clock]) == Next(s, Text(XrangeText(S.Range(es, CStr(cmd[2]), CStr(cmd[3]), clock.ms))))
  {
    N.XrangeIsXrange(cmd);
    Handled(s, cmd, clock, KXrange);
  }

  lemma RangeIs(es: seq<S.Entry>, start: string, end: string, a: S.ID, b: S.ID, now: nat)
    requires S.Ordered(es) && now < U64 && a.Valid() && b.Valid()
    requires start == I.Bound(a) || (start == "-" && a == S.ZERO)
    requires end == I.Bound(b) || (end == "+" && b == S.MAX)
    ensures S.Range(es, start, end, now) == I.Between(es, a, b)
  {
    I.RangeBetween(es, a, b, now);
  }

  lemma BetweenReads(es: seq<S.Entry>, a: S.ID, b: S.ID)
    requires S.Ordered(es) && |es| <= I32_MAX && forall e :: e in es ==> X.Sound(e)
    ensures X.ReadReply(XrangeText(I.Between(es, a, b))) == Some(I.Between(es, a, b))
  {
    I.BetweenWithin(es, a, b);
    X.ReplyReads(I.Between(es, a, b));
  }

  /** XRANGE answers the entries between its bounds: the reply reads back as exactly those. */
  lemma XrangeAnswers(s: Server, cmd: Command, clock: Clock, es: seq<S.Entry>, a: S.ID, b: S.ID)
    requires Clean(s) && !s.inTx && |cmd| == 4 && N.Spelled(cmd[0], "XRANGE")
    requires GetStream(s.store, CStr(cmd[1])) == Some(es) && S.Ordered(es)
    requires |es| <= I32_MAX && forall e :: e in es ==> X.Sound(e)
    requires a.Valid() && b.Valid()
    requires CStr(cmd[2]) == I.Bound(a) || (CStr(cmd[2]) == "-" && a == S.ZERO)
    requires CStr(cmd[3]) == I.Bound(b) || (CStr(cmd[3]) == "+" && b == S.MAX)
    ensures match Execute(s, cmd, [clock])
            case Crashed => false
            case Next(s', reply) => s' == s && reply.Text? && X.ReadReply(reply.s) == Some(I.Between(es, a, b))
  {
    XrangeStep(s, cmd, clock, es);
    RangeIs(es, CStr(cmd[2]), CStr(cmd[3]), a, b, clock.ms);
    BetweenReads(es, a, b);
  }

  /** XRANGE of a key that holds no stream answers an empty array. */
  lemma XrangeOfNothing(s: Server, cmd: Command, clock: Clock)
    requires Clean(s) && !s.inTx && |cmd| == 4 && N.Spelled(cmd[0], "XRANGE")
    requires GetStream(s.store, CStr(cmd[1])).None?
    ensures Execute(s, cmd, [clock]) == Next(s, Text("*0\r\n"))
  {
    N.XrangeIsXrange(cmd);
    Handled(s, cmd, clock, KXrange);
    assert Dec(0) == "0";
    assert "*" + "0" + CRLF + "" == "*0\r\n";
  }

  /** What XADD was given is what XRANGE answers: after an accepted XADD whose ID fits, the
      whole range reads back as the old entries and then the new one, under the ID that XADD
      answered. */
  lemma XaddThenXrangeAnswers(s: Server, name: string, key: string, id: string, fields: seq<string>, values: seq<string>,
                              write: Clock, range: Command, read: Clock, es: seq<S.Entry>)
    requires Clean(s) && !s.inTx && WellFormed(s.store) && N.Spelled(name, "XADD") && |fields| == |values| > 0
    requires StreamAddDefined(s.store, CStr(key)) && es == StreamOf(s.store, CStr(key)) && S.Ordered(es)
    requires var call := S.Call(CStr(id), fields, values, write.ms);
             S.AddOutcome(es, call).Added? && S.CallFits(es, call)
    requires |range| == 4 && N.Spelled(range[0], "XRANGE") && CStr(range[1]) == CStr(key)
    requires CStr(range[2]) == "-" && CStr(range[3]) == "+"
    requires |es| < I32_MAX && (forall e :: e in es ==> X.Sound(e)) && 2 * |fields| <= I32_MAX
    requires forall f :: f in fields || f in values ==> Carried(f)
    ensures var added := Execute(s, XaddCommand(name, key, id, fields, values), [write]);
            && added.Next? && added.reply.Text?
            && var e := S.Entry(S.AddOutcome(es, S.Call(CStr(id), fields, values, write.ms)).id, fields, values);
               var answer := Execute(added.server, range, [read]);
               && R.ParseResponse(added.reply.s) == Some(R.Bulk(e.id))
               && answer.Next? && answer.reply.Text? && X.ReadReply(answer.reply.s) == Some(es + [e])
  {
    var call := S.Call(CStr(id), fields, values, write.ms);
    XaddStep(s, name, key, id, fields, values, write);
    XaddAnswers(es, call);
    var s' := Execute(s, XaddCommand(name, key, id, fields, values), [write]).server;
    StreamAdded(s.store, CStr(key), call);
    S.AddKeepsOrder(es, call);
    IDCarried(es, call);
    var e := S.Entry(S.AddOutcome(es, call).id, fields, values);
    assert S.Add(es, call) == es + [e] && X.Sound(e);
    XrangeAnswers(s', range, read, es + [e], S.ZERO, S.MAX);
    I.AllBetween(es + [e]);
  }

  lemma StreamAdded(st: StoreState, key: string, call: S.Call)
    requires WellFormed(st) && StreamAddDefined(st, key) && call.now < U64
    ensures GetStream(StreamAdd(st, key, call), key) == Some(S.Add(StreamOf(st, key), call))
  {
    AbsLookup(st.table, key);
    SR.StreamAddRefines(st, key, call);
    SR.ReadsRefine(StreamAdd(st, key, call), key, 0);
  }

  // ----- REPLCONF and PSYNC -----

  /** REPLCONF answers ACK with nothing and anything but ACK and GETACK with OK. */
  lemma ReplconfAnswers(s: Server, cmd: Command, clock: Clock)
    requires Clean(s) && !s.inTx && |cmd| == 3 && N.Spelled(cmd[0], "REPLCONF")
    ensures N.Spelled(CStr(cmd[1]), "ACK") ==> Execute(s, cmd, [clock]) == Next(s, Silent)
    ensures !N.Spelled(CStr(cmd[1]), "ACK") && !N.Spelled(CStr(cmd[1]), "GETACK") ==>
              Execute(s, cmd, [clock]) == Next(s, Text("+OK\r\n"))
  {
    N.ReplconfIsReplconf(cmd);
    Handled(s, cmd, clock, KReplconf);
    N.SpelledIff(CStr(cmd[1]), "ACK");
    N.SpelledIff(CStr(cmd[1]), "GETACK");
    assert "+" + "OK" + CRLF == "+OK\r\n";
  }

  // ----- What is propagated -----

  /** A command outside a transaction is propagated if and only if it is accepted and named
      INCR or XADD, or SET on a master. */
  lemma PropagatesIff(s: Server, cmd: Command, clock: Clock)
    requires Clean(s) && !s.inTx && Queueable(cmd) && Execute(s, cmd, [clock]).Next?
    ensures var name, log := CStr(cmd[0]), Execute(s, cmd, [clock]).server.log;
            log == if N.Spelled(name, "INCR") || N.Spelled(name, "XADD") || (s.isMaster && N.Spelled(name, "SET"))
                   then s.log + [cmd] else s.log
  {
    Handled(s, cmd, clock, Classify(cmd).kind);
    N.ClassifyIs(cmd);
    N.KindIsNamed(CStr(cmd[0]), N.Reference(CStr(cmd[0])));
    N.NameIsKind(CStr(cmd[0]));
  }
}
