/** Which replies EXEC hands on unchanged (app/command.c:365-385, app/resp.c:367-404). */
module ExecReplies {
  import opened Options
  import opened CText
  import opened Sequences
  import R = Resp
  import opened Store
  import S = Streams
  import opened Commands
  import opened Transactions

  // ----- Reply texts -----

  lemma {:induction false} CStrAfter(a: string, b: string)
    requires NulFree(a)
    ensures CStr(a + b) == a + CStr(b)
  {
    if a == "" {
      assert a + b == b;
    } else {
      assert (a + b)[1..] == a[1..] + b;
      CStrAfter(a[1..], b);
    }
  }

  /** Two printed headers that agree print the same number. */
  lemma HeaderInjective(mark: char, a: nat, b: nat, x: string, y: string)
    requires mark != '\r'
    requires [mark] + Dec(a) + CRLF + x == [mark] + Dec(b) + CRLF + y
    ensures a == b
  {
    var p, q := [mark] + Dec(a), [mark] + Dec(b);
    R.DecSignedNoCr(a);
    R.DecSignedNoCr(b);
    R.FindCrlfAfter(p, x, 0);
    R.FindCrlfAfter(q, y, 0);
    assert |p| == |q|;
    assert p == (p + CRLF + x)[..|p|] && q == (q + CRLF + y)[..|q|];
    assert p[1..] == Dec(a) && q[1..] == Dec(b);
    ValueOfDec(a);
    ValueOfDec(b);
  }

  /** No character of a text is a control character. */
  predicate Printable(s: string) {
    forall i :: 0 <= i < |s| ==> s[i] >= ' '
  }

  lemma PrintableText(s: string)
    requires Printable(s)
    ensures NulFree(s) && R.NoCrlf(s)
  {
    forall i | 0 <= i < |s| ensures !R.CrlfAt(s, i) {
      assert s[i] >= ' ';
    }
  }

  lemma PrintedSurvives(v: R.RespValue)
    requires R.Canonical(v)
    ensures R.SurvivesExec(R.ElementText(v))
  {
    R.ElementTextNulFree(v);
    R.ReplyRoundTrip(R.ElementText(v));
  }

  lemma SimpleSurvives(m: string)
    requires Printable(m)
    ensures R.SurvivesExec(SimpleText(m).s)
  {
    PrintableText(m);
    PrintedSurvives(R.Simple(m));
  }

  lemma ErrorSurvives(m: string)
    requires Printable(m)
    ensures R.SurvivesExec(ErrorText(m).s)
  {
    PrintableText(m);
    PrintedSurvives(R.Error(m));
  }

  /** The first character of a printed value tells its kind. */
  lemma FirstChar(v: R.RespValue)
    ensures R.ElementText(v) != ""
    ensures R.ElementText(v)[0] == match v
                                   case Simple(_) => '+'
                                   case Error(_) => '-'
                                   case Integer(_) => ':'
                                   case Bulk(_) => '$'
                                   case Array(_) => '*'
  {
    match v
    case Bulk(s) => BulkReplyHeader(s);
    case Array(es) => R.ArrayTextUncut(es);
    case _ =>
  }

  lemma HeaderNulFree(mark: char, n: nat)
    requires mark != '\0'
    ensures NulFree([mark] + Dec(n) + CRLF)
  {
    R.DecSignedNulFree(n);
  }

  lemma BulkReplyHeader(v: string)
    ensures CStr(R.BulkText(v)) == "$" + Dec(|v|) + CRLF + CStr(v + CRLF)
  {
    var h := "$" + Dec(|v|) + CRLF;
    HeaderNulFree('$', |v|);
    ConcatAssociative(h, v, CRLF);
    CStrAfter(h, v + CRLF);
  }

  /** A bulk reply survives exactly when its payload is NUL-free and of int-range length. */
  lemma BulkSurvivesIff(v: string)
    ensures R.SurvivesExec(BulkReply(v).s) <==> NulFree(v) && |v| <= I32_MAX
  {
    var r := CStr(R.BulkText(v));
    if NulFree(v) && |v| <= I32_MAX {
      PrintedSurvives(R.Bulk(v));
    }
    if R.SurvivesExec(r) {
      R.ReplyRoundTrip(r);
      var w :| R.Canonical(w) && r == R.ElementText(w);
      FirstChar(w);
      FirstChar(R.Bulk(v));
      BulkOfBulk(v, w.str);
    }
  }

  lemma BulkOfBulk(v: string, s: string)
    requires NulFree(s) && |s| <= I32_MAX && CStr(R.BulkText(v)) == CStr(R.BulkText(s))
    ensures NulFree(v) && |v| <= I32_MAX
  {
    BulkReplyHeader(v);
    BulkReplyHeader(s);
    HeaderInjective('$', |v|, |s|, CStr(v + CRLF), CStr(s + CRLF));
    R.BulkTextNulFree(s);
    SameLength(v, s);
  }

  lemma SameLength(v: string, s: string)
    requires |v| == |s| && NulFree(R.BulkText(s)) && CStr(R.BulkText(v)) == R.BulkText(s)
    ensures NulFree(v)
  {
    assert |R.BulkText(v)| == |R.BulkText(s)|;
    assert NulFree(R.BulkText(v));
    var h := "$" + Dec(|v|) + CRLF;
    assert R.BulkText(v) == h + v + CRLF;
    forall c | c in v ensures c != '\0' {
      assert c in R.BulkText(v);
    }
  }

  /** A null bulk string reads back as an error, not as a value. */
  lemma NullDoesNotSurvive()
    ensures R.ParseResponse(R.NULL_BULK) == None
    ensures !R.SurvivesExec(R.NULL_BULK)
  {
    R.FindCrlfAfter("$-1", "", 0);
    assert "$-1" + CRLF + "" == R.NULL_BULK;
    assert R.NULL_BULK[..3] == "$-1";
    assert "$-1"[1..] == "-" + Dec(1);
    ScanNegative(Dec(1));
    ValueOfDec(1);
    assert Atoi("-" + Dec(1)) == -1;
    assert R.HeaderNumber("$-1") == -1;
  }

  // ----- XRANGE -----

  lemma {:induction false} FieldsTextNulFree(fields: seq<string>, values: seq<string>)
    requires |fields| == |values|
    ensures NulFree(FieldsText(fields, values))
  {
    if fields != [] {
      FieldsTextNulFree(fields[1..], values[1..]);
    }
  }

  lemma {:induction false} EntriesTextNulFree(es: seq<S.Entry>)
    ensures NulFree(EntriesText(es))
    ensures es != [] ==> EntriesText(es) != "" && EntriesText(es)[0] == '*'
  {
    if es != [] {
      EntriesTextNulFree(es[1..]);
      R.DecSignedNulFree(|es[0].fields| * 2);
      if |es[0].fields| == |es[0].values| {
        FieldsTextNulFree(es[0].fields, es[0].values);
      }
    }
  }

  /** An XRANGE reply is nested, so it survives only when it has no entries. */
  lemma XrangeSurvivesIff(es: seq<S.Entry>)
    ensures R.SurvivesExec(XrangeText(es)) <==> es == []
  {
    var r := XrangeText(es);
    EntriesTextNulFree(es);
    R.DecSignedNulFree(|es|);
    if es == [] {
      R.ArrayTextIsWire([]);
      assert R.Transmissible([]) && r == R.ElementText(R.Array(R.Bulks([])));
      PrintedSurvives(R.Array(R.Bulks([])));
    } else if R.SurvivesExec(r) {
      R.ReplyRoundTrip(r);
      var w :| R.Canonical(w) && r == R.ElementText(w);
      FirstChar(w);
      var ss :| R.Transmissible(ss) && w.elements == R.Bulks(ss);
      NestedIsNotFlat(es, ss);
    }
  }

  lemma NestedIsNotFlat(es: seq<S.Entry>, ss: seq<string>)
    requires es != [] && EntriesText(es) != "" && EntriesText(es)[0] == '*' && R.AllNulFree(ss)
    ensures XrangeText(es) != R.ArrayText(R.Bulks(ss))
  {
    R.ArrayTextIsWire(ss);
    var h := |R.ArrayHeader(|es|)|;
    assert XrangeText(es)[h] == '*';
    if |es| == |ss| {
      assert R.Wire(ss)[h] == '$';
    } else if XrangeText(es) == R.Wire(ss) {
      HeaderInjective('*', |es|, |ss|, EntriesText(es), R.BulksWire(ss));
    }
  }

  // ----- Replies that EXEC changes -----

  /** The reply parses, and what is printed for the value differs from it at some offset that
      both have, whatever comes after them. */
  ghost predicate Changed(r: string) {
    && R.ParseResponse(r).Some?
    && forall x, y :: r + x != R.ElementText(R.ParseResponse(r).value) + y
  }

  /** A reply does not parse, or it survives, or it is visibly changed. */
  ghost predicate Tells(r: string) {
    R.ParseResponse(r).None? || R.SurvivesExec(r) || Changed(r)
  }

  /** A text cut at a NUL is too short for the length it announces. */
  lemma CutBulkDoesNotParse(v: string)
    requires !NulFree(v) && |v| <= I32_MAX
    ensures R.ParseBulk(CStr(R.BulkText(v))).Incomplete?
  {
    var rest := CStr(v + CRLF);
    BulkReplyHeader(v);
    R.HeaderRoundTrip('$', |v|, rest);
    assert !NulFree(v + CRLF);
    assert |rest| < |v + CRLF|;
  }

  lemma BulkTells(v: string)
    requires !(NulFree(v) && |v| <= I32_MAX)
    ensures Tells(BulkReply(v).s)
  {
    var r := CStr(R.BulkText(v));
    BulkReplyHeader(v);
    if R.ParseResponse(r).Some? {
      var s := R.ParseResponse(r).value.str;
      R.BulkFromInput(r);
      BulkReplyHeader(s);
      forall x, y ensures r + x != R.ElementText(R.Bulk(s)) + y {
        if r + x == R.ElementText(R.Bulk(s)) + y {
          SameBulkLength(v, s, x, y);
          CutBulkDoesNotParse(v);
          assert false;
        }
      }
    }
  }

  lemma SameBulkLength(v: string, s: string, x: string, y: string)
    requires CStr(R.BulkText(v)) + x == CStr(R.BulkText(s)) + y
    ensures |v| == |s|
  {
    BulkReplyHeader(v);
    BulkReplyHeader(s);
    ConcatAssociative("$" + Dec(|v|) + CRLF, CStr(v + CRLF), x);
    ConcatAssociative("$" + Dec(|s|) + CRLF, CStr(s + CRLF), y);
    HeaderInjective('$', |v|, |s|, CStr(v + CRLF) + x, CStr(s + CRLF) + y);
  }

  lemma NestedDiffers(n: nat, a: string, m: nat, b: string)
    requires a != "" && a[0] == '*' && n > 0 && (m > 0 ==> b != "" && b[0] == '$')
    ensures R.ArrayHeader(n) + a != R.ArrayHeader(m) + b
  {
    var h := |R.ArrayHeader(n)|;
    assert (R.ArrayHeader(n) + a)[h] == '*';
    if n == m {
      assert (R.ArrayHeader(m) + b)[h] == '$';
    } else if R.ArrayHeader(n) + a == R.ArrayHeader(m) + b {
      HeaderInjective('*', n, m, a, b);
    }
  }

  lemma NestedTextDiffers(n: nat, a: string, x: string, m: nat, b: string, y: string)
    requires a != "" && a[0] == '*' && n > 0 && (m > 0 ==> b != "" && b[0] == '$')
    ensures R.ArrayHeader(n) + a + x != R.ArrayHeader(m) + b + y
  {
    ConcatAssociative(R.ArrayHeader(n), a, x);
    ConcatAssociative(R.ArrayHeader(m), b, y);
    NestedDiffers(n, a + x, m, b + y);
  }

  lemma FlatText(vs: seq<R.RespValue>, ss: seq<string>)
    requires vs == R.Bulks(ss)
    ensures vs != [] ==> R.ElementsText(vs) != "" && R.ElementsText(vs)[0] == '$'
  {
    if vs != [] {
      FirstChar(vs[0]);
    }
  }

  lemma NestedIsNotPrinted(r: string, n: nat, a: string, x: string, ss: seq<string>, y: string)
    requires r == R.ArrayHeader(n) + a && a != "" && a[0] == '*' && n > 0
    ensures r + x != R.ElementText(R.Array(R.Bulks(ss))) + y
  {
    var vs := R.Bulks(ss);
    FlatText(vs, ss);
    R.ArrayTextUncut(vs);
    NestedTextDiffers(n, a, x, |vs|, R.ElementsText(vs), y);
  }

  lemma ArrayParse(r: string) returns (ss: seq<string>)
    requires r != "" && r[0] == '*' && R.ParseResponse(r).Some?
    ensures R.ParseResponse(r) == Some(R.Array(R.Bulks(ss)))
  {
    ss := R.ParseArray(r).value;
  }

  lemma NestedTells(r: string, n: nat, a: string)
    requires r == R.ArrayHeader(n) + a && a != "" && a[0] == '*' && n > 0
    ensures Tells(r)
  {
    assert r[0] == '*';
    if R.ParseResponse(r).Some? {
      var ss := ArrayParse(r);
      forall x, y ensures r + x != R.ElementText(R.Array(R.Bulks(ss))) + y {
        NestedIsNotPrinted(r, n, a, x, ss, y);
      }
    }
  }

  lemma XrangeTells(es: seq<S.Entry>)
    requires es != []
    ensures Tells(XrangeText(es))
  {
    EntriesTextNulFree(es);
    NestedTells(XrangeText(es), |es|, EntriesText(es));
  }

  ghost predicate AllTell(replies: seq<Reply>) {
    forall r :: r in replies ==> r.Text? && Tells(r.s)
  }

  lemma SamePrefix<T>(a: seq<T>, b: seq<T>, c: seq<T>)
    requires a + b == a + c
    ensures b == c
  {
    assert b == (a + b)[|a|..];
  }

  /** One changed reply is enough for the printed values to differ from the replies. */
  lemma {:induction false} PrintedTells(replies: seq<Reply>, x: string, y: string)
    requires AllTell(replies) && ParsedReplies(replies).Some?
    requires JoinReplies(replies) + x == R.ElementsText(ParsedReplies(replies).value) + y
    ensures AllSurvive(replies)
  {
    if replies != [] {
      var r, rest := replies[0].s, replies[1..];
      var v, vs := R.ParseResponse(r).value, ParsedReplies(rest).value;
      assert replies[0] in replies;
      assert ParsedReplies(replies).value[1..] == vs;
      ConcatAssociative(r, JoinReplies(rest), x);
      ConcatAssociative(R.ElementText(v), R.ElementsText(vs), y);
      assert r + (JoinReplies(rest) + x) == R.ElementText(v) + (R.ElementsText(vs) + y);
      SamePrefix(r, JoinReplies(rest) + x, R.ElementsText(vs) + y);
      PrintedTells(rest, x, y);
      assert replies == [replies[0]] + rest;
    }
  }

  /** When every reply parses, the EXEC reply is the concatenation if and only if every reply
      survives. */
  lemma ExecReplyTells(replies: seq<Reply>)
    requires AllTell(replies) && ParsedReplies(replies).Some?
    ensures ExecReply(replies) == Text(R.ArrayHeader(|replies|) + JoinReplies(replies)) <==> AllSurvive(replies)
  {
    if AllSurvive(replies) {
      ExecReplyIsConcatenation(replies);
    }
    var h := R.ArrayHeader(|replies|);
    if ExecReply(replies) == Text(h + JoinReplies(replies)) {
      var vs := ParsedReplies(replies).value;
      R.ArrayTextUncut(vs);
      SamePrefix(h, JoinReplies(replies), R.ElementsText(vs));
      assert JoinReplies(replies) + "" == R.ElementsText(vs) + "";
      PrintedTells(replies, "", "");
    }
  }

  // ----- Every handler -----

  lemma PrintableConcat(a: string, b: string)
    requires Printable(a) && Printable(b)
    ensures Printable(a + b)
  {
  }

  lemma ZeroTextPrintable()
    ensures Printable(S.ZERO_ID_TEXT)
  {
    PrintableConcat("ERR The ID specified in ", "XADD must be greater than 0-0");
  }

  lemma SmallTextPrintable()
    ensures Printable(S.SMALL_ID_TEXT)
  {
    PrintableConcat("XADD is equal or smaller than ", "the target stream top item");
    PrintableConcat("ERR The ID specified in ", "XADD is equal or smaller than " + "the target stream top item");
  }

  lemma NotIntegerPrintable()
    ensures Printable(NOT_INTEGER)
  {
    PrintableConcat("ERR value is not an ", "integer or out of range");
  }

  lemma ErrorsSurvive()
    ensures R.SurvivesExec(ErrorText(S.ERR_ZERO[1..]).s) && R.SurvivesExec(ErrorText(S.ERR_SMALL[1..]).s)
    ensures R.SurvivesExec(ErrorText(NOT_INTEGER).s)
  {
    ZeroTextPrintable();
    SmallTextPrintable();
    NotIntegerPrintable();
    assert S.ERR_ZERO[1..] == S.ZERO_ID_TEXT && S.ERR_SMALL[1..] == S.SMALL_ID_TEXT;
    ErrorSurvives(S.ZERO_ID_TEXT);
    ErrorSurvives(S.SMALL_ID_TEXT);
    ErrorSurvives(NOT_INTEGER);
  }

  lemma GeneratedSurvives(id: S.ID)
    requires id.Valid()
    ensures R.SurvivesExec(BulkReply(S.GenerateID(id.ms, id.seqNo)).s)
  {
    S.GeneratedText(id);
    R.DecSignedNulFree(id.ms);
    R.DecSignedNulFree(S.Stored(id).seqNo);
    BulkSurvivesIff(S.GenerateID(id.ms, id.seqNo));
  }

  lemma AddSurvives(es: seq<S.Entry>, call: S.Call)
    requires call.now < U64 && XaddReply(S.AddOutcome(es, call)).Some?
    ensures XaddReply(S.AddOutcome(es, call)).value.Text?
    ensures R.SurvivesExec(XaddReply(S.AddOutcome(es, call)).value.s)
  {
    match S.AddOutcome(es, call)
    case Added(id) => GeneratedSurvives(S.ChosenID(es, S.ParseID(call.id, call.now).value, call.now));
    case Rejected(_) => ErrorsSurvive();
  }

  lemma XaddSurvives(st: StoreState, cmd: Command, clock: Clock)
    requires |st.table| > 0 && |cmd| >= 4 && HandleXadd(st, cmd, clock).Ran?
    ensures R.SurvivesExec(HandleXadd(st, cmd, clock).reply.s)
  {
    AddSurvives(StreamOf(st, CStr(cmd[1])), XaddCall(cmd, clock));
  }

  lemma IntegerSurvives(n: int)
    requires -I64_MAX - 1 <= n <= I64_MAX
    ensures R.SurvivesExec(":" + DecSigned(n) + CRLF)
  {
    PrintedSurvives(R.Integer(n));
  }

  lemma IncrSurvives(st: StoreState, cmd: Command, clock: Clock)
    requires |st.table| > 0 && |cmd| >= 2 && HandleIncr(st, cmd, clock).Ran?
    ensures R.SurvivesExec(HandleIncr(st, cmd, clock).reply.s)
  {
    match Get(st, CStr(cmd[1]), clock.ms)
    case None =>
      IntegerSurvives(1);
      assert ":" + DecSigned(1) + CRLF == ":1\r\n";
    case Some(v) =>
      if ReadsAsNumber(v) {
        IntegerSurvives(StrToI64(v) + 1);
      } else {
        ErrorsSurvive();
      }
  }

  lemma GetSurvivesIff(st: StoreState, cmd: Command, clock: Clock)
    requires |st.table| > 0 && |cmd| >= 2
    ensures R.SurvivesExec(HandleGet(st, cmd, clock).reply.s) <==> HandedOn(st, KGet, cmd, clock)
  {
    match Get(st, CStr(cmd[1]), clock.ms)
    case None => NullDoesNotSurvive();
    case Some(v) => BulkSurvivesIff(v);
  }

  lemma StatusSurvives(m: string)
    requires m == "OK" || m == "PONG" || m == "string" || m == "stream" || m == "none"
    ensures R.SurvivesExec(SimpleText(m).s)
  {
    assert Printable(m);
    SimpleSurvives(m);
  }

  lemma TypeSurvives(st: StoreState, cmd: Command, clock: Clock)
    requires |st.table| > 0 && |cmd| >= 2
    ensures R.SurvivesExec(HandleType(st, cmd, clock).reply.s)
  {
    var m := match TypeOf(st, CStr(cmd[1]), clock.sec)
             case TypeString => "string"
             case TypeStream => "stream"
             case TypeNone => "none";
    StatusSurvives(m);
  }

  /** The commands whose reply EXEC hands on byte for byte: not a GET that finds nothing,
      not an XRANGE that finds entries, and no payload with a NUL byte. */
  predicate HandedOn(st: StoreState, k: Kind, cmd: Command, clock: Clock)
    requires |st.table| > 0 && |cmd| >= Reads(k)
  {
    match k
    case KGet =>
      var v := Get(st, CStr(cmd[1]), clock.ms);
      v.Some? && NulFree(v.value) && |v.value| <= I32_MAX
    case KEcho => NulFree(cmd[1]) && |cmd[1]| <= I32_MAX
    case KXrange => XrangeEntries(st, cmd, clock) == []
    case _ => true
  }

  /** The reply of a modelled handler survives EXEC if and only if it is handed on. */
  lemma ReplySurvivesIff(st: StoreState, k: Kind, cmd: Command, clock: Clock)
    requires |st.table| > 0 && |cmd| >= Reads(k)
    requires RunHandler(st, k, cmd, clock).Ran? && RunHandler(st, k, cmd, clock).reply.Text?
    ensures R.SurvivesExec(RunHandler(st, k, cmd, clock).reply.s) <==> HandedOn(st, k, cmd, clock)
  {
    match k
    case KGet => GetSurvivesIff(st, cmd, clock);
    case KEcho => BulkSurvivesIff(cmd[1]);
    case KXadd => XaddSurvives(st, cmd, clock);
    case KXrange => XrangeSurvivesIff(XrangeEntries(st, cmd, clock));
    case KIncr => IncrSurvives(st, cmd, clock);
    case KSet => StatusSurvives("OK");
    case KPing => StatusSurvives("PONG");
    case KType => TypeSurvives(st, cmd, clock);
    case KReplconf => StatusSurvives("OK");
    case _ =>
  }

  // ----- Whole transactions -----

  /** Every queueable command of a list, run directly in turn, has a reply that is handed on. */
  predicate RunHandsOn(s: Server, cs: seq<Input>, clocks: seq<Clock>, i: nat)
    requires Clean(s)
    decreases |cs|
  {
    cs != [] ==>
      if !Queueable(cs[0].cmd) then RunHandsOn(s, cs[1..], clocks, i)
      else
        var r := Execute(s, cs[0].cmd, [ClockAt(clocks, i)]);
        && r.Next? && r.reply.Text?
        && HandedOn(s.store, Classify(cs[0].cmd).kind, cs[0].cmd, ClockAt(clocks, i))
        && RunHandsOn(r.server, cs[1..], clocks, i + 1)
  }

  lemma ReplyTells(st: StoreState, k: Kind, cmd: Command, clock: Clock)
    requires |st.table| > 0 && |cmd| >= Reads(k) && !HandedOn(st, k, cmd, clock)
    requires RunHandler(st, k, cmd, clock).Ran? && RunHandler(st, k, cmd, clock).reply.Text?
    ensures Tells(RunHandler(st, k, cmd, clock).reply.s)
  {
    match k
    case KGet =>
      var v := Get(st, CStr(cmd[1]), clock.ms);
      NullDoesNotSurvive();
      if v.Some? {
        BulkTells(v.value);
      }
    case KEcho => BulkTells(cmd[1]);
    case KXrange => XrangeTells(XrangeEntries(st, cmd, clock));
  }

  /** A direct reply survives exactly if it is handed on, and tells. */
  lemma DirectReplyTells(s: Server, cmd: Command, clock: Clock)
    requires Clean(s) && !s.inTx && Queueable(cmd)
    requires Execute(s, cmd, [clock]).Next? && Execute(s, cmd, [clock]).reply.Text?
    ensures var r := Execute(s, cmd, [clock]).reply.s;
            && (R.SurvivesExec(r) <==> HandedOn(s.store, Classify(cmd).kind, cmd, clock))
            && Tells(r)
  {
    var k := Classify(cmd).kind;
    ReplySurvivesIff(s.store, k, cmd, clock);
    if !HandedOn(s.store, k, cmd, clock) {
      ReplyTells(s.store, k, cmd, clock);
    }
  }

  ghost predicate AllText(replies: seq<Reply>) {
    forall r :: r in replies ==> r.Text?
  }

  /** What a direct run says about the transaction: every reply of a run that ends tells, and
      the run hands on exactly when it ends and all its replies survive. */
  ghost predicate RunTells(s: Server, cs: seq<Input>, clocks: seq<Clock>, i: nat)
    requires Clean(s)
  {
    var d := RunAll(s, Direct(cs, clocks, i));
    && (d.Looped? && AllText(QueuedReplies(cs, d.replies)) ==> AllTell(QueuedReplies(cs, d.replies)))
    && (RunHandsOn(s, cs, clocks, i) <==> d.Looped? && AllSurvive(QueuedReplies(cs, d.replies)))
  }

  lemma QueuedCons(cs: seq<Input>, r: Reply, rs: seq<Reply>)
    requires cs != [] && Queueable(cs[0].cmd) && |cs| == |rs| + 1
    ensures QueuedReplies(cs, [r] + rs) == [r] + QueuedReplies(cs[1..], rs)
  {
  }

  lemma ConsTells(r: Reply, rs: seq<Reply>)
    ensures AllText([r] + rs) <==> r.Text? && AllText(rs)
    ensures AllTell([r] + rs) <==> r.Text? && Tells(r.s) && AllTell(rs)
    ensures AllSurvive([r] + rs) <==> r.Text? && R.SurvivesExec(r.s) && AllSurvive(rs)
  {
    assert ([r] + rs)[0] == r && r in [r] + rs;
    assert forall x :: x in [r] + rs <==> x == r || x in rs;
  }

  lemma {:induction false} RepliesTell(s: Server, cs: seq<Input>, clocks: seq<Clock>, i: nat)
    requires Clean(s) && !s.inTx && NoTransactionCommands(cs)
    ensures RunTells(s, cs, clocks, i)
    decreases |cs|
  {
    if cs != [] {
      assert cs[0] in cs;
      if Queueable(cs[0].cmd) {
        DirectCons(cs, clocks, i);
        var r := Execute(s, cs[0].cmd, [ClockAt(clocks, i)]);
        if r.Next? {
          RepliesTell(r.server, cs[1..], clocks, i + 1);
          StepTells(s, cs, clocks, i);
        }
      } else {
        RefusedDoesNothing(s, cs[0]);
        assert Direct(cs, clocks, i)[1..] == Direct(cs[1..], clocks, i);
        RepliesTell(s, cs[1..], clocks, i);
      }
    }
  }

  lemma StepTells(s: Server, cs: seq<Input>, clocks: seq<Clock>, i: nat)
    requires Clean(s) && !s.inTx && cs != [] && Queueable(cs[0].cmd)
    requires Direct(cs, clocks, i)[0] == Input(cs[0].cmd, [ClockAt(clocks, i)])
    requires Direct(cs, clocks, i)[1..] == Direct(cs[1..], clocks, i + 1)
    requires Execute(s, cs[0].cmd, [ClockAt(clocks, i)]).Next?
    requires RunTells(Execute(s, cs[0].cmd, [ClockAt(clocks, i)]).server, cs[1..], clocks, i + 1)
    ensures RunTells(s, cs, clocks, i)
  {
    var step := Execute(s, cs[0].cmd, [ClockAt(clocks, i)]);
    var d := RunAll(step.server, Direct(cs[1..], clocks, i + 1));
    if step.reply.Text? {
      DirectReplyTells(s, cs[0].cmd, ClockAt(clocks, i));
    }
    if d.Looped? {
      QueuedCons(cs, step.reply, d.replies);
      ConsTells(step.reply, QueuedReplies(cs[1..], d.replies));
    }
  }

  lemma DirectCons(cs: seq<Input>, clocks: seq<Clock>, i: nat)
    requires cs != [] && Queueable(cs[0].cmd)
    ensures Direct(cs, clocks, i)[0] == Input(cs[0].cmd, [ClockAt(clocks, i)])
    ensures Direct(cs, clocks, i)[1..] == Direct(cs[1..], clocks, i + 1)
  {
  }

  /** The commands whose handler is modelled to the last byte of its reply. */
  predicate Modelled(cmd: Command)
    requires Queueable(cmd)
  {
    match Classify(cmd).kind
    case KReplconf => !SameName(CStr(cmd[1]), "GETACK")
    case KXread => false case KConfig => false case KKeys => false
    case KInfo => false case KPsync => false case KWait => false
    case _ => true
  }

  predicate AllModelled(cs: seq<Input>) {
    forall c :: c in cs && Queueable(c.cmd) ==> Modelled(c.cmd)
  }

  /** A modelled command answers a text or nothing. */
  lemma ModelledReply(s: Server, cmd: Command, clocks: seq<Clock>)
    requires Clean(s) && !s.inTx && Queueable(cmd) && Modelled(cmd)
    ensures var r := Execute(s, cmd, clocks); r.Next? ==> r.reply.Text? || r.reply.Silent?
  {
  }

  lemma {:induction false} ModelledReplies(s: Server, cs: seq<Input>, clocks: seq<Clock>, i: nat)
    requires Clean(s) && !s.inTx && NoTransactionCommands(cs) && AllModelled(cs)
    requires RunAll(s, Direct(cs, clocks, i)).Looped?
    ensures var rs := QueuedReplies(cs, RunAll(s, Direct(cs, clocks, i)).replies); FallsSilent(rs) || AllText(rs)
    decreases |cs|
  {
    if cs != [] {
      assert cs[0] in cs;
      if Queueable(cs[0].cmd) {
        DirectCons(cs, clocks, i);
        ModelledReply(s, cs[0].cmd, [ClockAt(clocks, i)]);
        var r := Execute(s, cs[0].cmd, [ClockAt(clocks, i)]);
        var rest := RunAll(r.server, Direct(cs[1..], clocks, i + 1));
        ModelledReplies(r.server, cs[1..], clocks, i + 1);
        QueuedCons(cs, r.reply, rest.replies);
        ConsTells(r.reply, QueuedReplies(cs[1..], rest.replies));
      } else {
        RefusedDoesNothing(s, cs[0]);
        assert Direct(cs, clocks, i)[1..] == Direct(cs[1..], clocks, i);
        ModelledReplies(s, cs[1..], clocks, i);
      }
    }
  }

  lemma {:induction false} SomeGarbles(replies: seq<Reply>)
    requires AllText(replies)
    ensures ParsedReplies(replies).None? <==> exists r :: r in replies && Garbles(r)
  {
    if replies != [] {
      var rest := replies[1..];
      assert replies == [replies[0]] + rest;
      assert replies[0] in replies;
      SomeGarbles(rest);
      assert forall r :: r in replies <==> r == replies[0] || r in rest;
    }
  }

  lemma NoneGarbles(replies: seq<Reply>)
    requires AllText(replies)
    ensures ExecReply(replies) == Undefined <==> ParsedReplies(replies).None?
    ensures AllSurvive(replies) ==> ParsedReplies(replies).Some?
  {
    SomeGarbles(replies);
    if AllSurvive(replies) {
      ParsedPrintBack(replies);
    }
  }

  /** The EXEC reply of a transaction of modelled commands. The transaction crashes exactly
      when the direct run does or a queued command answers nothing. Otherwise the reply is
      undefined exactly when some direct reply does not parse; when all parse it is `*n`
      followed by the n direct replies byte for byte if and only if no queued XRANGE finds
      entries and every answered value is NUL-free with an int-range length. */
  lemma ExecHandsOn(s: Server, multi: Input, cs: seq<Input>, exec: Input)
    requires Between(s) && !s.inTx && NoTransactionCommands(cs) && AllModelled(cs)
    requires Is(multi.cmd, KMulti) && Is(exec.cmd, KExec)
    ensures var t, d := RunAll(s, [multi] + cs + [exec]), RunAll(s, Direct(cs, exec.clocks, 0));
            && (t.LoopCrashed? <==> d.LoopCrashed? || FallsSilent(QueuedReplies(cs, d.replies)))
            && (t.Looped? ==>
                  var rs, last := QueuedReplies(cs, d.replies), t.replies[|t.replies| - 1];
                  && AllText(rs)
                  && (last == Undefined <==> ParsedReplies(rs).None?)
                  && (ParsedReplies(rs).Some? ==>
                        last.Text?
                        && (last == Text(R.ArrayHeader(|rs|) + JoinReplies(rs)) <==> RunHandsOn(s, cs, exec.clocks, 0)))
                  && (RunHandsOn(s, cs, exec.clocks, 0) ==> ParsedReplies(rs).Some?))
  {
    TransactionIsDirectRun(s, multi, cs, exec);
    RepliesTell(s, cs, exec.clocks, 0);
    var d := RunAll(s, Direct(cs, exec.clocks, 0));
    if d.Looped? && !FallsSilent(QueuedReplies(cs, d.replies)) {
      ModelledReplies(s, cs, exec.clocks, 0);
      var rs := QueuedReplies(cs, d.replies);
      NoneGarbles(rs);
      if ParsedReplies(rs).Some? {
        ExecReplyTells(rs);
      }
    }
  }
}
