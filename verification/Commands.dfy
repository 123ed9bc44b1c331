/** The command dispatcher and its handlers (app/command.c) as functions on values. */
module Commands {
  import opened Options
  import opened CText
  import R = Resp
  import opened Store
  import S = Streams

  /** A command is an array of bulk strings, as parseResp builds it. */
  type Command = seq<string>

  type Millis = n: nat | n < U64 witness 0

  /** One reading of the clocks: getCurrentTimeMs() and time(NULL). */
  datatype Clock = Clock(ms: Millis, sec: nat)

  /** What a command answers: a text for sendReply; some text of a handler that is not
      modelled; nothing, where the handler returns NULL; or, for EXEC, an undefined result:
      it printed and freed a value that was never initialised. */
  datatype Reply = Text(s: string) | Open | Silent | Undefined

  // ----- Command table -----

  datatype Kind =
    | KSet | KGet | KPing | KEcho | KType | KXadd | KXrange | KXread | KIncr
    | KMulti | KExec | KDiscard
    | KConfig | KKeys | KInfo | KReplconf | KPsync | KWait

  function ToUpper(c: char): char {
    if 'a' <= c <= 'z' then (c as int - 32) as char else c
  }

  function Upper(s: string): (u: string)
    ensures |u| == |s|
  {
    seq(|s|, i requires 0 <= i < |s| => ToUpper(s[i]))
  }

  /** strcasecmp(s, name) == 0 for an upper-case name. */
  predicate SameName(s: string, name: string) {
    Upper(s) == name
  }

  /** A row of baseCommands; maxArgs is -1 where there is no upper limit. */
  datatype Row = Row(name: string, kind: Kind, minArgs: nat, maxArgs: int)

  const BASE_COMMANDS: seq<Row> := [
    Row("SET", KSet, 3, 5), Row("GET", KGet, 2, 2), Row("PING", KPing, 1, 1),
    Row("ECHO", KEcho, 2, 2), Row("TYPE", KType, 2, 2), Row("XADD", KXadd, 4, -1),
    Row("XRANGE", KXrange, 4, 4), Row("XREAD", KXread, 4, -1), Row("INCR", KIncr, 2, 2),
    Row("MULTI", KMulti, 1, 1), Row("EXEC", KExec, 1, 1), Row("DISCARD", KDiscard, 0, -1),
    Row("CONFIG", KConfig, 3, 3), Row("KEYS", KKeys, 2, 2), Row("INFO", KInfo, 1, 2),
    Row("REPLCONF", KReplconf, 3, 3), Row("PSYNC", KPsync, 3, 3), Row("WAIT", KWait, 3, 3)
  ]

  /** The least number of arguments, the command's name included, that each handler reads. */
  function Reads(k: Kind): nat {
    match k
    case KGet => 2 case KEcho => 2 case KType => 2 case KIncr => 2 case KReplconf => 2
    case KSet => 3
    case KXadd => 4 case KXrange => 4
    case _ => 1
  }

  /** The arity table protects every handler from reading past its arguments. */
  predicate Protects(row: Row) {
    row.minArgs >= Reads(row.kind) || Reads(row.kind) == 1
  }

  lemma TableProtects(j: nat)
    requires j < |BASE_COMMANDS|
    ensures Protects(BASE_COMMANDS[j])
  {
    var row := BASE_COMMANDS[j];
    if j < 6 {
      assert row == BASE_COMMANDS[..6][j];
    } else if j < 12 {
      assert row == BASE_COMMANDS[6..12][j - 6];
    } else {
      assert row == BASE_COMMANDS[12..][j - 12];
    }
  }

  /** The first row from i on whose name matches. */
  function FindCommand(name: string, i: nat): (r: Option<Row>)
    requires i <= |BASE_COMMANDS|
    ensures r.Some? ==> Protects(r.value)
    decreases |BASE_COMMANDS| - i
  {
    if i == |BASE_COMMANDS| then None
    else if SameName(name, BASE_COMMANDS[i].name) then TableProtects(i); Some(BASE_COMMANDS[i])
    else FindCommand(name, i + 1)
  }

  predicate ArityOk(row: Row, n: nat) {
    row.minArgs <= n && (row.maxArgs != -1 ==> n <= row.maxArgs)
  }

  datatype Verdict = Accepted(kind: Kind) | Refused(reply: Reply)

  function ErrorText(message: string): Reply {
    Text("-" + message + CRLF)
  }

  function SimpleText(message: string): Reply {
    Text("+" + message + CRLF)
  }

  /** The checks executeCommand makes before it looks at the client's state. */
  function Classify(cmd: Command): (v: Verdict)
    ensures v.Accepted? ==> |cmd| >= Reads(v.kind)
  {
    if cmd == [] then Refused(ErrorText("wrong number of arguments"))
    else
      match FindCommand(CStr(cmd[0]), 0)
      case None => Refused(ErrorText("unknown command"))
      case Some(row) =>
        if ArityOk(row, |cmd|) then Accepted(row.kind)
        else Refused(ErrorText("wrong number of arguments"))
  }

  predicate IsTransactional(k: Kind) {
    k == KMulti || k == KExec || k == KDiscard
  }

  predicate Queueable(cmd: Command) {
    Classify(cmd).Accepted? && !IsTransactional(Classify(cmd).kind)
  }

  predicate IsTransactionCommand(cmd: Command) {
    Classify(cmd).Accepted? && IsTransactional(Classify(cmd).kind)
  }

  // ----- Handlers -----

  /** A handler's effect, or Crash where the C code dereferences a null or foreign pointer
      or overflows a signed integer. */
  datatype Outcome = Ran(store: StoreState, reply: Reply) | Crash

  /** createBulkString as a C string: what follows a NUL byte is lost. */
  function BulkReply(s: string): Reply {
    Text(CStr(R.BulkText(s)))
  }

  /** The options of SET that set an expiry: how many milliseconds, 0 for none. */
  function PxOption(cmd: Command): int {
    if |cmd| < 5 || !SameName(CStr(cmd[3]), "PX") then 0
    else
      var ms := StrToI64(CStr(cmd[4]));
      if ms <= 0 then 0 else ms
  }

  /** SET of a key, with an expiry px milliseconds from now unless px is 0. */
  function SetStore(st: StoreState, key: string, data: string, px: int, clock: Clock): (r: StoreState)
    requires |st.table| > 0
    ensures |r.table| > 0
  {
    if px == 0 then Set(st, key, data) else SetExpiry(Set(st, key, data), key, clock.ms + px)
  }

  function HandleSet(st: StoreState, cmd: Command, clock: Clock): (r: Outcome)
    requires |st.table| > 0 && |cmd| >= 3
    ensures r.Ran? && |r.store.table| > 0
  {
    Ran(SetStore(st, CStr(cmd[1]), cmd[2], PxOption(cmd), clock), SimpleText("OK"))
  }

  function HandleGet(st: StoreState, cmd: Command, clock: Clock): Outcome
    requires |st.table| > 0 && |cmd| >= 2
  {
    match Get(st, CStr(cmd[1]), clock.ms)
    case Some(v) => Ran(st, BulkReply(v))
    case None => Ran(st, Text(R.NULL_BULK))
  }

  function HandleType(st: StoreState, cmd: Command, clock: Clock): Outcome
    requires |st.table| > 0 && |cmd| >= 2
  {
    Ran(st, SimpleText(match TypeOf(st, CStr(cmd[1]), clock.sec)
                       case TypeString => "string"
                       case TypeStream => "stream"
                       case TypeNone => "none"))
  }

  function XaddCall(cmd: Command, clock: Clock): (c: S.Call)
    requires |cmd| >= 4
    ensures c.now < U64 && |c.fields| == |c.values| == (|cmd| - 3) / 2
  {
    var n := (|cmd| - 3) / 2;
    S.Call(CStr(cmd[2]),
           seq(n, i requires 0 <= i < n => CStr(cmd[3 + i * 2])),
           seq(n, i requires 0 <= i < n => CStr(cmd[4 + i * 2])),
           clock.ms)
  }

  /** What handleXadd makes of streamAdd's result; a null result is dereferenced. */
  function XaddReply(r: S.AddResult): Option<Reply> {
    match r
    case Unparseable => None
    case Rejected(message) => Some(ErrorText(if message == "" then "" else message[1..]))
    case Added(id) => Some(BulkReply(id))
  }

  function HandleXadd(st: StoreState, cmd: Command, clock: Clock): (r: Outcome)
    requires |st.table| > 0 && |cmd| >= 4
    ensures r.Ran? ==> |r.store.table| > 0
  {
    var key, call := CStr(cmd[1]), XaddCall(cmd, clock);
    if !StreamAddDefined(st, key) then Crash
    else
      match XaddReply(S.AddOutcome(StreamOf(st, key), call))
      case None => Crash
      case Some(reply) => Ran(StreamAdd(st, key, call), reply)
  }

  function FieldsText(fields: seq<string>, values: seq<string>): string
    requires |fields| == |values|
  {
    if fields == [] then ""
    else CStr(R.BulkText(fields[0])) + CStr(R.BulkText(values[0])) + FieldsText(fields[1..], values[1..])
  }

  function EntriesText(es: seq<S.Entry>): string {
    if es == [] then ""
    else
      "*2\r\n" + CStr(R.BulkText(es[0].id)) + R.ArrayHeader(|es[0].fields| * 2)
      + (if |es[0].fields| == |es[0].values| then FieldsText(es[0].fields, es[0].values) else "")
      + EntriesText(es[1..])
  }

  /** createXrangeResponse; no entries print as an empty array. */
  function XrangeText(es: seq<S.Entry>): string {
    R.ArrayHeader(|es|) + EntriesText(es)
  }

  /** The entries an XRANGE command selects. */
  function XrangeEntries(st: StoreState, cmd: Command, clock: Clock): seq<S.Entry>
    requires |st.table| > 0 && |cmd| >= 4
  {
    match GetStream(st, CStr(cmd[1]))
    case None => []
    case Some(es) => S.Range(es, CStr(cmd[2]), CStr(cmd[3]), clock.ms)
  }

  function HandleXrange(st: StoreState, cmd: Command, clock: Clock): Outcome
    requires |st.table| > 0 && |cmd| >= 4
  {
    Ran(st, Text(XrangeText(XrangeEntries(st, cmd, clock))))
  }

  // In pieces, as in Streams.
  const NOT_INTEGER: string := "ERR value is not an " + "integer or out of range"

  /** strtoll stopped at the text's terminating NUL. */
  predicate ReadsAsNumber(v: string) {
    ScanEnd(v) == |v| || v[ScanEnd(v)] == '\0'
  }

  function HandleIncr(st: StoreState, cmd: Command, clock: Clock): (r: Outcome)
    requires |st.table| > 0 && |cmd| >= 2
    ensures r.Ran? ==> |r.store.table| > 0
  {
    var key := CStr(cmd[1]);
    match Get(st, key, clock.ms)
    case None => Ran(Set(st, key, "1"), Text(":1\r\n"))
    case Some(v) =>
      if !ReadsAsNumber(v) then Ran(st, ErrorText(NOT_INTEGER))
      else if StrToI64(v) == I64_MAX then Crash
      else
        var n := DecSigned(StrToI64(v) + 1);
        Ran(Set(st, key, n), Text(":" + n + CRLF))
  }

  /** REPLCONF answers GETACK with the replication offset, ACK with nothing and anything
      else with OK. */
  function ReplconfReply(cmd: Command): Reply
    requires |cmd| >= 2
  {
    if SameName(CStr(cmd[1]), "GETACK") then Open
    else if SameName(CStr(cmd[1]), "ACK") then Silent
    else SimpleText("OK")
  }

  /** The handler of a command that is not MULTI, EXEC or DISCARD. Handlers outside the
      model do not touch the store; their replies stay open. */
  function RunHandler(st: StoreState, k: Kind, cmd: Command, clock: Clock): (r: Outcome)
    requires |st.table| > 0 && |cmd| >= Reads(k)
    ensures r.Ran? ==> |r.store.table| > 0
  {
    match k
    case KSet => HandleSet(st, cmd, clock)
    case KGet => HandleGet(st, cmd, clock)
    case KPing => Ran(st, SimpleText("PONG"))
    case KEcho => Ran(st, BulkReply(cmd[1]))
    case KType => HandleType(st, cmd, clock)
    case KXadd => HandleXadd(st, cmd, clock)
    case KXrange => HandleXrange(st, cmd, clock)
    case KIncr => HandleIncr(st, cmd, clock)
    case KReplconf => Ran(st, ReplconfReply(cmd))
    case _ => Ran(st, Open)
  }

  /** PSYNC answers nothing on a replica. */
  function Answered(k: Kind, isMaster: bool, reply: Reply): Reply {
    if k == KPsync && !isMaster then Silent else reply
  }

  /** The test at the end of executeCommand: SET only on a master, INCR and XADD always. */
  predicate Propagates(k: Kind, isMaster: bool) {
    (isMaster && k == KSet) || k == KIncr || k == KXadd
  }

  // ----- The dispatcher -----

  /** The server's store and propagated commands, and one client's transaction state. */
  datatype Server = Server(store: StoreState, log: seq<Command>, isMaster: bool, inTx: bool, queue: seq<Command>)

  datatype Step = Next(server: Server, reply: Reply) | Crashed

  datatype Loop = Looped(server: Server, replies: seq<Reply>) | LoopCrashed

  /** The queue never holds MULTI, EXEC or DISCARD, and every queued command passed its
      arity check. */
  ghost predicate Clean(s: Server) {
    |s.store.table| > 0 && forall c :: c in s.queue ==> Queueable(c)
  }

  /** What holds between commands: outside a transaction the queue is empty. */
  ghost predicate Between(s: Server) {
    Clean(s) && (!s.inTx ==> s.queue == [])
  }

  function ClockAt(clocks: seq<Clock>, i: nat): Clock {
    if i < |clocks| then clocks[i] else Clock(0, 0)
  }

  /** executeCommand. `clocks` are the readings it takes: one for a direct command, one per
      queued command for EXEC. */
  function Execute(s: Server, cmd: Command, clocks: seq<Clock>): (r: Step)
    requires Clean(s)
    ensures r.Next? ==> Clean(r.server)
    ensures r.Next? && !IsTransactionCommand(cmd) && !s.inTx ==>
              r.server == s.(store := r.server.store, log := r.server.log)
    decreases if IsTransactionCommand(cmd) then 1 else 0, |s.queue| + 1
  {
    match Classify(cmd)
    case Refused(reply) => Next(s, reply)
    case Accepted(k) =>
      if k == KMulti then Next(s.(inTx := true), SimpleText("OK"))
      else if k == KExec then
        if !s.inTx then Next(s, ErrorText("ERR EXEC without MULTI"))
        else
          match ExecLoop(s.(inTx := false), 0, clocks)
          case LoopCrashed => Crashed
          case Looped(s', replies) => Next(s'.(inTx := false, queue := []), ExecReply(replies))
      else if k == KDiscard then
        if !s.inTx then Next(s, ErrorText("ERR DISCARD without MULTI"))
        else Next(s.(inTx := false, queue := []), SimpleText("OK"))
      else if s.inTx then Next(s.(queue := s.queue + [cmd]), SimpleText("QUEUED"))
      else
        match RunHandler(s.store, k, cmd, ClockAt(clocks, 0))
        case Crash => Crashed
        case Ran(st, reply) =>
          Next(s.(store := st, log := if Propagates(k, s.isMaster) then s.log + [cmd] else s.log),
               Answered(k, s.isMaster, reply))
  }

  /** The loop of handleExec from queued command i on, through executeCommand itself; a
      command that answers nothing makes it dereference a null pointer. */
  function ExecLoop(s: Server, i: nat, clocks: seq<Clock>): (r: Loop)
    requires Clean(s) && !s.inTx && i <= |s.queue|
    ensures r.Looped? ==> Clean(r.server) && r.server == s.(store := r.server.store, log := r.server.log)
    ensures r.Looped? ==> |r.replies| == |s.queue| - i
    decreases 1, |s.queue| - i
  {
    if i == |s.queue| then Looped(s, [])
    else
      assert Queueable(s.queue[i]);
      match Execute(s, s.queue[i], [ClockAt(clocks, i)])
      case Crashed => LoopCrashed
      case Next(s', Silent) => LoopCrashed
      case Next(s', reply) =>
        match ExecLoop(s', i + 1, clocks)
        case LoopCrashed => LoopCrashed
        case Looped(s'', replies) => Looped(s'', [reply] + replies)
  }

  /** A reply that parseResponseToRespValue does not turn into a value. */
  predicate Garbles(r: Reply) {
    r.Silent? || r.Undefined? || (r.Text? && R.ParseResponse(r.s).None?)
  }

  /** Each reply is parsed back into a value and the values are printed as one array; the
      result is undefined when a reply does not parse, and open when it rests on a handler
      that is not modelled. */
  function ExecReply(replies: seq<Reply>): Reply {
    match ParsedReplies(replies)
    case Some(vs) => Text(R.ArrayText(vs))
    case None => if exists r :: r in replies && Garbles(r) then Undefined else Open
  }

  function ParsedReplies(replies: seq<Reply>): (r: Option<seq<R.RespValue>>)
    ensures r.Some? ==> |r.value| == |replies|
  {
    if replies == [] then Some([])
    else if !replies[0].Text? || R.ParseResponse(replies[0].s).None? then None
    else
      match ParsedReplies(replies[1..])
      case None => None
      case Some(vs) => Some([R.ParseResponse(replies[0].s).value] + vs)
  }

  // ----- Runs -----

  datatype Input = Input(cmd: Command, clocks: seq<Clock>)

  function RunAll(s: Server, inputs: seq<Input>): (r: Loop)
    requires Clean(s)
    ensures r.Looped? ==> Clean(r.server) && |r.replies| == |inputs|
    decreases |inputs|
  {
    if inputs == [] then Looped(s, [])
    else
      match Execute(s, inputs[0].cmd, inputs[0].clocks)
      case Crashed => LoopCrashed
      case Next(s', reply) =>
        match RunAll(s', inputs[1..])
        case LoopCrashed => LoopCrashed
        case Looped(s'', replies) => Looped(s'', [reply] + replies)
  }

  function Start(isMaster: bool): Server {
    Server(Fresh(), [], isMaster, false, [])
  }

  /** One command keeps the transaction discipline. */
  lemma ExecuteKeepsBetween(s: Server, cmd: Command, clocks: seq<Clock>)
    requires Between(s)
    ensures Execute(s, cmd, clocks).Next? ==> Between(Execute(s, cmd, clocks).server)
  {
  }

  /** Over every run of a client, between commands: not in a transaction implies an empty
      queue, and the queue holds only accepted, non-transactional commands. Hence EXEC's
      loop never changes the queue or re-enters EXEC, and the recursion terminates. */
  lemma {:induction false} RunKeepsBetween(s: Server, inputs: seq<Input>)
    requires Between(s)
    ensures RunAll(s, inputs).Looped? ==> Between(RunAll(s, inputs).server)
    decreases |inputs|
  {
    if inputs != [] {
      var r := Execute(s, inputs[0].cmd, inputs[0].clocks);
      ExecuteKeepsBetween(s, inputs[0].cmd, inputs[0].clocks);
      if r.Next? {
        RunKeepsBetween(r.server, inputs[1..]);
      }
    }
  }
}
