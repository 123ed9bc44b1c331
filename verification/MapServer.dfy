/** The server over a plain map, and the proof that the server over the hash table behaves
    like it: the same crashes, the same replies and log, and a table that stands for the
    map. EXEC is a fold over the queue here, with no recursion through the dispatcher.
    (`== true` in a contract limits unfolding, as in CommandLaws.) */
module MapServer {
  import opened CText
  import R = Resp
  import opened Store
  import SR = StoreRefinement
  import S = Streams
  import opened Commands
  import L = CommandLaws

  // ----- Handlers on a map -----

  datatype MOutcome = MRan(cells: Model, reply: Reply) | MCrash

  function MXadd(m: Model, cmd: Command, clock: Clock): MOutcome
    requires |cmd| >= 4
  {
    var key, call := CStr(cmd[1]), XaddCall(cmd, clock);
    if key in m && m[key].value.Str? then MCrash
    else
      match XaddReply(S.AddOutcome(if key in m then m[key].value.entries else [], call))
      case None => MCrash
      case Some(reply) => MRan(SR.MStreamAdd(m, key, call), reply)
  }

  function MIncr(m: Model, cmd: Command, clock: Clock): MOutcome
    requires |cmd| >= 2
  {
    var key := CStr(cmd[1]);
    match SR.MGet(m, key, clock.ms)
    case None => MRan(SR.MSet(m, key, "1"), Text(":1\r\n"))
    case Some(v) =>
      if !ReadsAsNumber(v) then MRan(m, ErrorText(NOT_INTEGER))
      else if StrToI64(v) == I64_MAX then MCrash
      else
        var n := DecSigned(StrToI64(v) + 1);
        MRan(SR.MSet(m, key, n), Text(":" + n + CRLF))
  }

  function TypeName(t: ValueType): string {
    match t case TypeString => "string" case TypeStream => "stream" case TypeNone => "none"
  }

  /** What a read-only command answers from the map. */
  function MReply(m: Model, k: Kind, cmd: Command, clock: Clock): Reply
    requires |cmd| >= Reads(k)
  {
    match k
    case KGet =>
      (match SR.MGet(m, CStr(cmd[1]), clock.ms)
       case Some(v) => BulkReply(v)
       case None => Text(R.NULL_BULK))
    case KType => SimpleText(TypeName(SR.MType(m, CStr(cmd[1]), clock.sec)))
    case KXrange =>
      (match SR.MStream(m, CStr(cmd[1]))
       case Some(es) => Text(XrangeText(S.Range(es, CStr(cmd[2]), CStr(cmd[3]), clock.ms)))
       case None => Text(XrangeText([])))
    case KPing => SimpleText("PONG")
    case KEcho => BulkReply(cmd[1])
    case KReplconf => ReplconfReply(cmd)
    case _ => Open
  }

  function MHandler(m: Model, k: Kind, cmd: Command, clock: Clock): MOutcome
    requires |cmd| >= Reads(k)
  {
    match k
    case KSet => MRan(L.MSetStore(m, CStr(cmd[1]), cmd[2], PxOption(cmd), clock), SimpleText("OK"))
    case KXadd => MXadd(m, cmd, clock)
    case KIncr => MIncr(m, cmd, clock)
    case _ => MRan(m, MReply(m, k, cmd, clock))
  }

  // ----- The server on a map -----

  datatype MServer = MServer(cells: Model, log: seq<Command>, isMaster: bool, inTx: bool, queue: seq<Command>)

  datatype MLoop = MLooped(server: MServer, replies: seq<Reply>) | MLoopCrashed

  datatype MStep = MNext(server: MServer, reply: Reply) | MCrashed

  /** A command outside a transaction. */
  function MDirect(s: MServer, cmd: Command, clock: Clock): MStep {
    match Classify(cmd)
    case Refused(reply) => MNext(s, reply)
    case Accepted(k) =>
      match MHandler(s.cells, k, cmd, clock)
      case MCrash => MCrashed
      case MRan(m, reply) =>
        MNext(s.(cells := m, log := if Propagates(k, s.isMaster) then s.log + [cmd] else s.log),
              Answered(k, s.isMaster, reply))
  }

  /** The commands of a list from i on, one after the other. */
  function MFold(s: MServer, cmds: seq<Command>, i: nat, clocks: seq<Clock>): MLoop
    requires i <= |cmds|
    decreases |cmds| - i
  {
    if i == |cmds| then MLooped(s, [])
    else
      match MDirect(s, cmds[i], ClockAt(clocks, i))
      case MCrashed => MLoopCrashed
      case MNext(s', Silent) => MLoopCrashed
      case MNext(s', reply) =>
        match MFold(s', cmds, i + 1, clocks)
        case MLoopCrashed => MLoopCrashed
        case MLooped(s'', replies) => MLooped(s'', [reply] + replies)
  }

  function MTransactional(s: MServer, k: Kind, clocks: seq<Clock>): MStep {
    if k == KMulti then MNext(s.(inTx := true), SimpleText("OK"))
    else if k == KDiscard then
      if s.inTx then MNext(s.(inTx := false, queue := []), SimpleText("OK"))
      else MNext(s, ErrorText("ERR DISCARD without MULTI"))
    else if !s.inTx then MNext(s, ErrorText("ERR EXEC without MULTI"))
    else
      match MFold(s.(inTx := false), s.queue, 0, clocks)
      case MLoopCrashed => MCrashed
      case MLooped(s', replies) => MNext(s'.(queue := []), ExecReply(replies))
  }

  function MExecute(s: MServer, cmd: Command, clocks: seq<Clock>): MStep {
    match Classify(cmd)
    case Refused(reply) => MNext(s, reply)
    case Accepted(k) =>
      if IsTransactional(k) then MTransactional(s, k, clocks)
      else if s.inTx then MNext(s.(queue := s.queue + [cmd]), SimpleText("QUEUED"))
      else MDirect(s, cmd, ClockAt(clocks, 0))
  }

  function MRunAll(s: MServer, inputs: seq<Input>): MLoop
    decreases |inputs|
  {
    if inputs == [] then MLooped(s, [])
    else
      match MExecute(s, inputs[0].cmd, inputs[0].clocks)
      case MCrashed => MLoopCrashed
      case MNext(s', reply) =>
        match MRunAll(s', inputs[1..])
        case MLoopCrashed => MLoopCrashed
        case MLooped(s'', replies) => MLooped(s'', [reply] + replies)
  }

  function MStart(isMaster: bool): MServer {
    MServer(map[], [], isMaster, false, [])
  }

  // ----- Simulation: one handler -----

  ghost predicate HandlerAgrees(r: Outcome, mr: MOutcome) {
    match r
    case Crash => mr.MCrash?
    case Ran(st, reply) => mr.MRan? && WellFormed(st) && Abs(st.table) == mr.cells && reply == mr.reply
  }

  lemma SetAgrees(st: StoreState, cmd: Command, clock: Clock)
    requires WellFormed(st) && |cmd| >= 3
    ensures HandlerAgrees(HandleSet(st, cmd, clock), MHandler(Abs(st.table), KSet, cmd, clock))
  {
    L.SetStoreMap(st, CStr(cmd[1]), cmd[2], PxOption(cmd), clock);
  }

  lemma XaddAgrees(st: StoreState, cmd: Command, clock: Clock)
    requires WellFormed(st) && |cmd| >= 4
    ensures HandlerAgrees(HandleXadd(st, cmd, clock), MXadd(Abs(st.table), cmd, clock))
  {
    var key, call := CStr(cmd[1]), XaddCall(cmd, clock);
    SR.ReadsRefine(st, key, 0);
    AbsLookup(st.table, key);
    if StreamAddDefined(st, key) {
      SR.StreamAddRefines(st, key, call);
    }
  }

  lemma WriteAgrees(st: StoreState, key: string, text: string, reply: Reply)
    requires WellFormed(st)
    ensures HandlerAgrees(Ran(Set(st, key, text), reply), MRan(SR.MSet(Abs(st.table), key, text), reply))
  {
    SR.SetRefines(st, key, text);
  }

  lemma IncrAgrees(st: StoreState, cmd: Command, clock: Clock)
    requires WellFormed(st) && |cmd| >= 2
    ensures HandlerAgrees(HandleIncr(st, cmd, clock), MIncr(Abs(st.table), cmd, clock)) == true
  {
    var key := CStr(cmd[1]);
    SR.ReadsRefine(st, key, clock.ms);
    match Get(st, key, clock.ms) {
      case None => WriteAgrees(st, key, "1", Text(":1\r\n"));
      case Some(v) =>
        var n := DecSigned(StrToI64(v) + 1);
        WriteAgrees(st, key, n, Text(":" + n + CRLF));
    }
  }

  lemma ReadAgrees(st: StoreState, k: Kind, cmd: Command, clock: Clock)
    requires WellFormed(st) && |cmd| >= Reads(k) && k != KSet && k != KXadd && k != KIncr
    ensures RunHandler(st, k, cmd, clock) == Ran(st, MReply(Abs(st.table), k, cmd, clock))
  {
    if |cmd| >= 2 {
      SR.ReadsRefine(st, CStr(cmd[1]), clock.ms);
      SR.ReadsRefine(st, CStr(cmd[1]), clock.sec);
    }
  }

  lemma RunHandlerAgrees(st: StoreState, k: Kind, cmd: Command, clock: Clock)
    requires WellFormed(st) && |cmd| >= Reads(k)
    ensures HandlerAgrees(RunHandler(st, k, cmd, clock), MHandler(Abs(st.table), k, cmd, clock))
  {
    match k
    case KSet => SetAgrees(st, cmd, clock);
    case KXadd => XaddAgrees(st, cmd, clock);
    case KIncr => IncrAgrees(st, cmd, clock);
    case _ => ReadAgrees(st, k, cmd, clock);
  }

  // ----- Simulation: every run -----

  /** The hash table stands for the map; everything else is the same. */
  ghost predicate Agree(s: Server, ms: MServer) {
    && Clean(s) && WellFormed(s.store)
    && ms == MServer(Abs(s.store.table), s.log, s.isMaster, s.inTx, s.queue)
  }

  ghost predicate StepAgrees(r: Step, mr: MStep) {
    match r
    case Crashed => mr.MCrashed?
    case Next(s, reply) => mr.MNext? && Agree(s, mr.server) && reply == mr.reply
  }

  ghost predicate LoopAgrees(r: Loop, mr: MLoop) {
    match r
    case LoopCrashed => mr.MLoopCrashed?
    case Looped(s, replies) => mr.MLooped? && Agree(s, mr.server) && replies == mr.replies
  }

  lemma DirectAgrees(s: Server, ms: MServer, cmd: Command, clocks: seq<Clock>)
    requires Agree(s, ms) && !s.inTx && Queueable(cmd)
    ensures StepAgrees(Execute(s, cmd, clocks), MDirect(ms, cmd, ClockAt(clocks, 0)))
  {
    RunHandlerAgrees(s.store, Classify(cmd).kind, cmd, ClockAt(clocks, 0));
  }

  lemma {:induction false} ExecLoopAgrees(s: Server, ms: MServer, i: nat, clocks: seq<Clock>)
    requires Agree(s, ms) && !s.inTx && i <= |s.queue|
    ensures LoopAgrees(ExecLoop(s, i, clocks), MFold(ms, s.queue, i, clocks))
    decreases |s.queue| - i
  {
    if i < |s.queue| {
      var cmd := s.queue[i];
      assert cmd in s.queue;
      DirectAgrees(s, ms, cmd, [ClockAt(clocks, i)]);
      var r := Execute(s, cmd, [ClockAt(clocks, i)]);
      if r.Next? {
        ExecLoopAgrees(r.server, MDirect(ms, cmd, ClockAt(clocks, i)).server, i + 1, clocks);
      }
    }
  }

  lemma ExecuteAgrees(s: Server, ms: MServer, cmd: Command, clocks: seq<Clock>)
    requires Agree(s, ms)
    ensures StepAgrees(Execute(s, cmd, clocks), MExecute(ms, cmd, clocks))
  {
    if Queueable(cmd) && !s.inTx {
      DirectAgrees(s, ms, cmd, clocks);
    } else if Classify(cmd) == Accepted(KExec) && s.inTx {
      ExecLoopAgrees(s.(inTx := false), ms.(inTx := false), 0, clocks);
    }
  }

  lemma {:induction false} RunAgrees(s: Server, ms: MServer, inputs: seq<Input>)
    requires Agree(s, ms)
    ensures LoopAgrees(RunAll(s, inputs), MRunAll(ms, inputs))
    decreases |inputs|
  {
    if inputs != [] {
      ExecuteAgrees(s, ms, inputs[0].cmd, inputs[0].clocks);
      var r := Execute(s, inputs[0].cmd, inputs[0].clocks);
      if r.Next? {
        RunAgrees(r.server, MExecute(ms, inputs[0].cmd, inputs[0].clocks).server, inputs[1..]);
      }
    }
  }

  /** For every list of inputs, transactions included, the server on the hash table and the
      server on the map crash together, give the same replies and the same log and queue,
      and end with a well-formed table that stands for the map; `used` counts the map's
      keys and every read is answered from it. */
  lemma ReachableStoreIsMap(inputs: seq<Input>, isMaster: bool, key: string, now: int)
    ensures var r, mr := RunAll(Start(isMaster), inputs), MRunAll(MStart(isMaster), inputs);
            && LoopAgrees(r, mr)
            && (r.Looped? ==>
                  var st, m := r.server.store, mr.server.cells;
                  && st.used == |m|
                  && Get(st, key, now) == SR.MGet(m, key, now)
                  && TypeOf(st, key, now) == SR.MType(m, key, now)
                  && GetStream(st, key) == SR.MStream(m, key))
  {
    SR.FreshRefines();
    RunAgrees(Start(isMaster), MStart(isMaster), inputs);
    var r := RunAll(Start(isMaster), inputs);
    if r.Looped? {
      UsedIsMapSize(r.server.store);
      SR.ReadsRefine(r.server.store, key, now);
    }
  }
}
