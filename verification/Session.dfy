/** One client's session on a server: the growable command queue, executeCommand with its
    mutually recursive EXEC loop, and the receive loop (app/command_queue.c, app/command.c,
    app/client_handler.c). `== true` in an invariant keeps the verifier from unfolding the
    predicate there. */
module Sessions {
  import opened Options
  import opened CText
  import opened Sequences
  import R = Resp
  import B = RespBuffers
  import M = Messages
  import opened Store
  import opened RedisStores
  import S = Streams
  import opened Commands

  class CommandQueue {
    var commands: array<Command>
    var size: nat

    ghost predicate Valid()
      reads this
    {
      size <= commands.Length
    }

    ghost function Contents(): seq<Command>
      requires Valid()
      reads this, commands
    {
      commands[..size]
    }

    constructor ()
      ensures Valid() && Contents() == [] && fresh(commands)
    {
      commands := new Command[0];
      size := 0;
    }

    /** queueCommand: capacity 0, 4, 8, 16, ... */
    method Enqueue(cmd: Command)
      requires Valid()
      modifies this, commands
      ensures Valid() && Contents() == old(Contents()) + [cmd]
      ensures commands == old(commands) || fresh(commands)
    {
      if size >= commands.Length {
        var capacity := if commands.Length == 0 then 4 else commands.Length * 2;
        var grown := new Command[capacity](_ => []);
        forall i | 0 <= i < size {
          grown[i] := commands[i];
        }
        assert grown[..size] == commands[..size];
        commands := grown;
      }
      commands[size] := cmd;
      size := size + 1;
    }

    /** clearCommandQueue. */
    method Clear()
      modifies this
      ensures Valid() && Contents() == [] && fresh(commands)
    {
      commands := new Command[0];
      size := 0;
    }
  }

  // ----- Handlers -----

  method HandleSet(store: RedisStore, cmd: Command, clock: Clock) returns (reply: Reply)
    requires store.Valid() && |cmd| >= 3
    modifies store.Footprint()
    ensures store.Valid() && fresh(store.Footprint() - old(store.Footprint()))
    ensures store.State() == SetStore(old(store.State()), CStr(cmd[1]), cmd[2], PxOption(cmd), clock)
    ensures reply == SimpleText("OK")
  {
    store.StoreSet(CStr(cmd[1]), cmd[2]);
    ExpireIn(store, CStr(cmd[1]), PxOption(cmd), clock);
    return SimpleText("OK");
  }

  /** The PX option of SET; 0 where there is none. */
  method ExpireIn(store: RedisStore, key: string, milliseconds: int, clock: Clock)
    requires store.Valid()
    modifies store.Footprint()
    ensures store.Valid() && store.Footprint() == old(store.Footprint())
    ensures store.State() == if milliseconds == 0 then old(store.State())
                             else SetExpiry(old(store.State()), key, clock.ms + milliseconds)
  {
    if milliseconds != 0 {
      var _ := store.StoreExpiry(key, clock.ms + milliseconds);
    }
  }

  method HandleGet(store: RedisStore, cmd: Command, clock: Clock) returns (reply: Reply)
    requires store.Valid() && |cmd| >= 2
    ensures Ran(store.State(), reply) == Commands.HandleGet(store.State(), cmd, clock)
  {
    var v := store.StoreGet(CStr(cmd[1]), clock.ms);
    reply := if v.Some? then BulkReply(v.value) else Text(R.NULL_BULK);
  }

  method HandleType(store: RedisStore, cmd: Command, clock: Clock) returns (reply: Reply)
    requires store.Valid() && |cmd| >= 2
    ensures Ran(store.State(), reply) == Commands.HandleType(store.State(), cmd, clock)
  {
    var t := store.GetValueType(CStr(cmd[1]), clock.sec);
    reply := SimpleText(match t case TypeString => "string" case TypeStream => "stream" case TypeNone => "none");
  }

  method HandleXrange(store: RedisStore, cmd: Command, clock: Clock) returns (reply: Reply)
    requires store.Valid() && |cmd| >= 4
    ensures Ran(store.State(), reply) == Commands.HandleXrange(store.State(), cmd, clock)
  {
    var stream := store.StoreGetStream(CStr(cmd[1]));
    var entries := if stream.None? then [] else S.Range(stream.value, CStr(cmd[2]), CStr(cmd[3]), clock.ms);
    reply := Text(XrangeText(entries));
  }

  /** Whether the handler ran; it does not where the C code crashes. */
  method HandleXadd(store: RedisStore, cmd: Command, clock: Clock) returns (ok: bool, reply: Reply)
    requires store.Valid() && |cmd| >= 4
    modifies store.Footprint()
    ensures store.Valid() && fresh(store.Footprint() - old(store.Footprint()))
    ensures (if ok then Ran(store.State(), reply) else Crash) == Commands.HandleXadd(old(store.State()), cmd, clock)
  {
    var key, call := CStr(cmd[1]), XaddCall(cmd, clock);
    var defined := store.HoldsNoString(key);
    if !defined {
      return false, Open;
    }
    var result := store.StoreStreamAdd(key, call);
    var answer := XaddReply(result);
    if answer.None? {
      return false, Open;
    }
    return true, answer.value;
  }

  method HandleIncr(store: RedisStore, cmd: Command, clock: Clock) returns (ok: bool, reply: Reply)
    requires store.Valid() && |cmd| >= 2
    modifies store.Footprint()
    ensures store.Valid() && fresh(store.Footprint() - old(store.Footprint()))
    ensures (if ok then Ran(store.State(), reply) else Crash) == Commands.HandleIncr(old(store.State()), cmd, clock)
  {
    var key := CStr(cmd[1]);
    var value := store.StoreGet(key, clock.ms);
    if value.None? {
      store.StoreSet(key, "1");
      return true, Text(":1\r\n");
    }
    if !ReadsAsNumber(value.value) {
      return true, ErrorText(NOT_INTEGER);
    }
    if StrToI64(value.value) == I64_MAX {
      return false, Open;
    }
    var n := DecSigned(StrToI64(value.value) + 1);
    store.StoreSet(key, n);
    return true, Text(":" + n + CRLF);
  }

  method Dispatch(store: RedisStore, k: Kind, cmd: Command, clock: Clock) returns (ok: bool, reply: Reply)
    requires store.Valid() && |cmd| >= Reads(k)
    modifies store.Footprint()
    ensures store.Valid() && fresh(store.Footprint() - old(store.Footprint()))
    ensures |old(store.State()).table| > 0
    ensures (if ok then Ran(store.State(), reply) else Crash) == RunHandler(old(store.State()), k, cmd, clock)
  {
    ok := true;
    match k {
      case KSet => reply := HandleSet(store, cmd, clock);
      case KGet => reply := HandleGet(store, cmd, clock);
      case KPing => reply := SimpleText("PONG");
      case KEcho => reply := BulkReply(cmd[1]);
      case KType => reply := HandleType(store, cmd, clock);
      case KXadd => ok, reply := HandleXadd(store, cmd, clock);
      case KXrange => reply := HandleXrange(store, cmd, clock);
      case KIncr => ok, reply := HandleIncr(store, cmd, clock);
      case KReplconf => reply := ReplconfReply(cmd);
      case _ => reply := Open;
    }
  }

  class Session {
    const store: RedisStore
    const queue: CommandQueue
    const isMaster: bool
    var log: seq<Command>
    var inTransaction: bool

    ghost var repr: set<object>

    ghost predicate Valid()
      reads this, repr
    {
      && this in repr && store in repr && queue in repr
      && store.table in repr && queue.commands in repr
      && store.Footprint() <= repr && store.Valid() && queue.Valid()
      && {this, queue, queue.commands} !! store.Footprint()
    }

    ghost function State(): Server
      requires Valid()
      reads this, repr
    {
      Server(store.State(), log, isMaster, inTransaction, queue.Contents())
    }

    constructor (isMaster: bool)
      ensures Valid() && State() == Start(isMaster) && fresh(repr)
    {
      store := new RedisStore();
      queue := new CommandQueue();
      this.isMaster := isMaster;
      log, inTransaction := [], false;
      new;
      repr := store.Footprint() + {this, queue, queue.commands};
    }

    /** executeCommand; ok is false where the C code crashes. */
    method ExecuteCommand(cmd: Command, clocks: seq<Clock>) returns (ok: bool, reply: Reply)
      requires Valid() && Clean(State())
      modifies repr
      ensures Valid() && fresh(repr - old(repr))
      ensures ok == Execute(old(State()), cmd, clocks).Next?
      ensures ok ==> Next(State(), reply) == Execute(old(State()), cmd, clocks)
      decreases if IsTransactionCommand(cmd) then 1 else 0, 1
    {
      var verdict := Classify(cmd);
      if verdict.Refused? {
        return true, verdict.reply;
      }
      if IsTransactional(verdict.kind) {
        ok, reply := HandleTransactional(cmd, clocks);
      } else if inTransaction {
        ok, reply := true, SimpleText("QUEUED");
        Queue(cmd);
      } else {
        ok, reply := RunDirect(cmd, clocks);
      }
    }

    /** queueCommand on this client's queue. */
    method Queue(cmd: Command)
      requires Valid()
      modifies repr
      ensures Valid() && fresh(repr - old(repr))
      ensures State() == old(State()).(queue := old(State()).queue + [cmd])
    {
      queue.Enqueue(cmd);
      repr := repr + {queue.commands};
    }

    /** The end of a transaction: an empty queue. */
    method Reset()
      requires Valid()
      modifies repr
      ensures Valid() && fresh(repr - old(repr))
      ensures State() == old(State()).(inTx := false, queue := [])
    {
      queue.Clear();
      inTransaction := false;
      repr := repr + {queue.commands};
    }

    method Run(k: Kind, cmd: Command, clock: Clock) returns (ok: bool, reply: Reply)
      requires Valid() && |cmd| >= Reads(k)
      modifies repr
      ensures Valid() && fresh(repr - old(repr)) && |old(State()).store.table| > 0
      ensures ok == RunHandler(old(State()).store, k, cmd, clock).Ran?
      ensures ok ==> Ran(State().store, reply) == RunHandler(old(State()).store, k, cmd, clock)
      ensures State() == old(State()).(store := State().store)
    {
      ok, reply := Dispatch(store, k, cmd, clock);
      repr := repr + store.Footprint();
    }

    /** The end of executeCommand: run the handler, then propagate. */
    method RunDirect(cmd: Command, clocks: seq<Clock>) returns (ok: bool, reply: Reply)
      requires Valid() && Clean(State()) && Queueable(cmd) && !inTransaction
      modifies repr
      ensures Valid() && fresh(repr - old(repr))
      ensures ok == Execute(old(State()), cmd, clocks).Next?
      ensures ok ==> Next(State(), reply) == Execute(old(State()), cmd, clocks)
    {
      var k := Classify(cmd).kind;
      ok, reply := Run(k, cmd, ClockAt(clocks, 0));
      reply := Answered(k, isMaster, reply);
      if ok && Propagates(k, isMaster) {
        log := log + [cmd];
      }
    }

    /** MULTI, EXEC and DISCARD. */
    method HandleTransactional(cmd: Command, clocks: seq<Clock>) returns (ok: bool, reply: Reply)
      requires Valid() && Clean(State()) && IsTransactionCommand(cmd)
      modifies repr
      ensures Valid() && fresh(repr - old(repr))
      ensures ok == Execute(old(State()), cmd, clocks).Next?
      ensures ok ==> Next(State(), reply) == Execute(old(State()), cmd, clocks)
      decreases 1, 0
    {
      var k := Classify(cmd).kind;
      if k == KMulti {
        inTransaction := true;
        return true, SimpleText("OK");
      } else if !inTransaction {
        return true, ErrorText(if k == KExec then "ERR EXEC without MULTI" else "ERR DISCARD without MULTI");
      } else if k == KExec {
        ok, reply := HandleExec(clocks);
      } else {
        Reset();
        return true, SimpleText("OK");
      }
    }

    /** handleExec inside a transaction. */
    method HandleExec(clocks: seq<Clock>) returns (ok: bool, reply: Reply)
      requires Valid() && Clean(State()) && inTransaction
      modifies repr
      ensures Valid() && fresh(repr - old(repr))
      ensures var loop := ExecLoop(old(State()).(inTx := false), 0, clocks);
              && ok == loop.Looped?
              && (ok ==> reply == ExecReply(loop.replies) && State() == loop.server.(inTx := false, queue := []))
      decreases 0, 4
    {
      inTransaction := false;
      var replies;
      ok, replies := RunQueue(clocks);
      if !ok {
        return false, Open;
      }
      reply := PrintReplies(replies);
      Reset();
    }

    /** The loop of handleExec: the queued commands go through executeCommand again. */
    method RunQueue(clocks: seq<Clock>) returns (ok: bool, replies: seq<Reply>)
      requires Valid() && Clean(State()) && !inTransaction
      modifies repr
      ensures Valid() && fresh(repr - old(repr))
      ensures ok == ExecLoop(old(State()), 0, clocks).Looped?
      ensures ok ==> Looped(State(), replies) == ExecLoop(old(State()), 0, clocks)
      decreases 0, 3
    {
      ghost var whole := ExecLoop(State(), 0, clocks);
      replies, ok := [], true;
      var i := 0;
      StartLoop(whole);
      while i < queue.size
        invariant Valid() && fresh(repr - old(repr)) && ok && i <= queue.size == |old(State()).queue|
        invariant Pending(whole, replies, State(), i, clocks) == true
        decreases |old(State()).queue| - i
      {
        ok, replies := RunNext(i, clocks, replies, whole);
        if !ok {
          return;
        }
        i := i + 1;
      }
      EndLoop(State(), i, clocks, replies);
    }

    /** One iteration: queued command i, with the replies collected so far. */
    method RunNext(i: nat, clocks: seq<Clock>, sofar: seq<Reply>, ghost whole: Loop) returns (ok: bool, replies: seq<Reply>)
      requires Valid() && i < queue.size && Pending(whole, sofar, State(), i, clocks)
      modifies repr
      ensures Valid() && fresh(repr - old(repr))
      ensures !ok ==> whole == LoopCrashed
      ensures ok ==> queue.size == old(queue.size) && Pending(whole, replies, State(), i + 1, clocks)
      decreases 0, 2
    {
      LoopOnto(State(), i, clocks, sofar);
      var response;
      ok, response := ExecuteCommand(queue.commands[i], [ClockAt(clocks, i)]);
      ok := ok && response != Silent;
      replies := sofar + [response];
    }
  }

  /** The whole loop of EXEC is what was collected, then the queue from i on. */
  ghost predicate Pending(whole: Loop, replies: seq<Reply>, s: Server, i: nat, clocks: seq<Clock>) {
    Clean(s) && !s.inTx && i <= |s.queue| && whole == Onto(replies, ExecLoop(s, i, clocks))
  }

  /** parseResponseToRespValue on each reply, then createRespArrayFromElements. */
  method PrintReplies(replies: seq<Reply>) returns (reply: Reply)
    ensures reply == ExecReply(replies)
  {
    var values := ParsedReplies(replies);
    if values.None? {
      return if exists r :: r in replies && Garbles(r) then Undefined else Open;
    }
    var text := B.PrintArray(values.value);
    return Text(text);
  }

  /** A loop's result with replies collected before it. */
  ghost function Onto(replies: seq<Reply>, loop: Loop): Loop {
    match loop
    case LoopCrashed => LoopCrashed
    case Looped(s, more) => Looped(s, replies + more)
  }

  lemma StartLoop(loop: Loop)
    ensures Onto([], loop) == loop
  {
    assert loop.Looped? ==> [] + loop.replies == loop.replies;
  }

  lemma LoopOnto(s: Server, i: nat, clocks: seq<Clock>, replies: seq<Reply>)
    requires Clean(s) && !s.inTx && i < |s.queue|
    ensures Queueable(s.queue[i])
    ensures Onto(replies, ExecLoop(s, i, clocks))
         == match Execute(s, s.queue[i], [ClockAt(clocks, i)])
            case Crashed => LoopCrashed
            case Next(s', r) =>
              assert Queueable(s.queue[i]);
              if r.Silent? then LoopCrashed else Onto(replies + [r], ExecLoop(s', i + 1, clocks))
  {
    assert s.queue[i] in s.queue;
    var step := Execute(s, s.queue[i], [ClockAt(clocks, i)]);
    if step.Next? {
      var rest := ExecLoop(step.server, i + 1, clocks);
      if rest.Looped? {
        ConcatAssociative(replies, [step.reply], rest.replies);
      }
    }
  }

  lemma EndLoop(s: Server, i: nat, clocks: seq<Clock>, replies: seq<Reply>)
    requires Clean(s) && !s.inTx && i == |s.queue|
    ensures Onto(replies, ExecLoop(s, i, clocks)) == Looped(s, replies)
  {
    assert replies + [] == replies;
  }

  // ----- The receive loop -----

  /** What handleClientCommand passes on: a non-empty array. */
  function AsCommand(v: R.RespValue): Option<Command> {
    if v.Array? && v.elements != [] && (forall i :: 0 <= i < |v.elements| ==> v.elements[i].Bulk?) then
      Some(seq(|v.elements|, i requires 0 <= i < |v.elements| && v.elements[i].Bulk? => v.elements[i].str))
    else None
  }

  /** The commands among the values received; `clockOf(k)` are the readings that the k-th
      command takes. */
  function Inputs(values: seq<R.RespValue>, clockOf: nat -> seq<Clock>, k: nat): seq<Input> {
    if values == [] then []
    else
      match AsCommand(values[0])
      case None => Inputs(values[1..], clockOf, k)
      case Some(cmd) => [Input(cmd, clockOf(k))] + Inputs(values[1..], clockOf, k + 1)
  }

  /** A session that still has the values of `pending` ahead of it. */
  ghost function Rest(s: Server, pending: string, clockOf: nat -> seq<Clock>, k: nat): Loop
    requires Clean(s)
  {
    RunAll(s, Inputs(B.Drain(pending).values, clockOf, k))
  }

  /** The session after one command, with the replies collected so far. */
  ghost function AfterStep(step: Step, replies: seq<Reply>, more: seq<Input>): Loop
    requires step.Next? ==> Clean(step.server)
  {
    match step
    case Crashed => LoopCrashed
    case Next(s, r) => Onto(replies + [r], RunAll(s, more))
  }

  /** One value parsed off the buffer is one step of the session. */
  lemma RestStep(s: Server, buffered: string, later: string, clockOf: nat -> seq<Clock>, k: nat, replies: seq<Reply>)
    requires Clean(s) && R.Parse(buffered).Ok?
    ensures var v, left := R.Parse(buffered).value, buffered[R.Parse(buffered).consumed..] + later;
            Onto(replies, Rest(s, buffered + later, clockOf, k))
            == if AsCommand(v).None? then Onto(replies, Rest(s, left, clockOf, k))
               else AfterStep(Execute(s, AsCommand(v).value, clockOf(k)), replies,
                              Inputs(B.Drain(left).values, clockOf, k + 1))
  {
    var Ok(v, c) := R.Parse(buffered);
    var rest := B.Drain(buffered[c..] + later).values;
    DrainOne(buffered, later);
    TailOfCons(v, rest);
    if AsCommand(v).Some? {
      RunCons(s, Input(AsCommand(v).value, clockOf(k)), Inputs(rest, clockOf, k + 1), replies);
    }
  }

  lemma DrainOne(buffered: string, later: string)
    requires R.Parse(buffered).Ok?
    ensures B.Drain(buffered + later).values
         == [R.Parse(buffered).value] + B.Drain(buffered[R.Parse(buffered).consumed..] + later).values
  {
    R.ParseExtends(buffered, later);
    CutFront(buffered, later, R.Parse(buffered).consumed);
  }

  lemma RunCons(s: Server, c: Input, more: seq<Input>, replies: seq<Reply>)
    requires Clean(s)
    ensures Onto(replies, RunAll(s, [c] + more)) == AfterStep(Execute(s, c.cmd, c.clocks), replies, more)
  {
    TailOfCons(c, more);
    var step := Execute(s, c.cmd, c.clocks);
    if step.Next? && RunAll(step.server, more).Looped? {
      ConcatAssociative(replies, [step.reply], RunAll(step.server, more).replies);
    }
  }

  /** A client connection: its buffer and its session. */
  class Connection {
    const buffer: B.RespBuffer
    const session: Session

    ghost predicate Valid()
      reads this, buffer, session, session.repr
    {
      && buffer.Valid() && session.Valid()
      && buffer !in session.repr && buffer.buffer !in session.repr
      && Clean(session.State())
    }

    constructor (isMaster: bool)
      ensures Valid() && session.State() == Start(isMaster) && buffer.Contents() == ""
    {
      buffer := new B.RespBuffer();
      session := new Session(isMaster);
    }

    /** One turn of the drain loop: parse a value and, if it is a command, execute it.
        `more` is false when parseResp does not answer RESP_OK, `ok` when the command crashes. */
    method HandleNext(clocks: seq<Clock>) returns (more: bool, ok: bool, answer: Option<Reply>)
      requires Valid()
      modifies buffer`used, buffer.buffer, session.repr
      ensures buffer.Valid() && session.Valid() && fresh(session.repr - old(session.repr)) && (ok ==> Valid())
      ensures Turn(old(session.State()), old(buffer.Contents()), clocks, more, ok, answer, session.State(), buffer.Contents())
    {
      ok, answer := true, None;
      var r := buffer.ParseNext();
      more := r.Ok?;
      if more {
        var cmd := AsCommand(r.value);
        if cmd.Some? {
          var reply;
          ok, reply := session.ExecuteCommand(cmd.value, clocks);
          answer := Some(reply);
        }
      }
    }

    /** The inner loop of handleClientData: execute every complete command in the buffer.
        `next` counts the commands executed; the loop ends early where one crashes. */
    method DrainBuffer(clockOf: nat -> seq<Clock>, k: nat, ghost later: string)
      returns (ok: bool, replies: seq<Reply>, next: nat)
      requires Valid()
      modifies buffer`used, buffer.buffer, session.repr
      ensures ok ==> Valid() && fresh(session.repr - old(session.repr)) && !R.Parse(buffer.Contents()).Ok?
      ensures Rest(old(session.State()), old(buffer.Contents()) + later, clockOf, k)
           == if ok then Onto(replies, Rest(session.State(), buffer.Contents() + later, clockOf, next)) else LoopCrashed
    {
      ghost var whole := Rest(session.State(), buffer.Contents() + later, clockOf, k);
      StartLoop(whole);
      replies, next, ok := [], k, true;
      var more := true;
      while more
        invariant Valid() && fresh(session.repr - old(session.repr)) && ok
        invariant !more ==> !R.Parse(buffer.Contents()).Ok?
        invariant Draining(whole, replies, session.State(), buffer.Contents(), later, clockOf, next) == true
        decreases buffer.used, more
      {
        more, ok, replies, next := DrainNext(clockOf, next, replies, later, whole);
        if !ok {
          return;
        }
      }
    }

    /** One turn, with the replies collected so far. */
    method DrainNext(clockOf: nat -> seq<Clock>, k: nat, sofar: seq<Reply>, ghost later: string, ghost whole: Loop)
      returns (more: bool, ok: bool, replies: seq<Reply>, next: nat)
      requires Valid() && Draining(whole, sofar, session.State(), buffer.Contents(), later, clockOf, k)
      modifies buffer`used, buffer.buffer, session.repr
      ensures !ok ==> whole == LoopCrashed
      ensures ok ==> Valid() && fresh(session.repr - old(session.repr))
      ensures ok && more ==> buffer.used < old(buffer.used)
      ensures ok && !more ==> buffer.used == old(buffer.used) && !R.Parse(buffer.Contents()).Ok?
      ensures ok ==> Draining(whole, replies, session.State(), buffer.Contents(), later, clockOf, next)
    {
      ghost var s, b := session.State(), buffer.Contents();
      var answer;
      more, ok, answer := HandleNext(clockOf(k));
      TurnIsStep(s, b, later, clockOf, k, sofar, more, ok, answer, session.State(), buffer.Contents());
      replies, next := sofar, k;
      if answer.Some? {
        replies, next := sofar + [answer.value], k + 1;
      }
    }

    /** appendRespBuffer and the drain loop on one received chunk. */
    method HandleChunk(chunk: string, clockOf: nat -> seq<Clock>, k: nat, ghost later: string)
      returns (ok: bool, replies: seq<Reply>, next: nat)
      requires Valid()
      modifies buffer, buffer.buffer, session.repr
      ensures ok ==> Valid() && fresh(session.repr - old(session.repr)) && !R.Parse(buffer.Contents()).Ok?
      ensures ok ==> buffer.buffer == old(buffer.buffer) || fresh(buffer.buffer)
      ensures Rest(old(session.State()), old(buffer.Contents()) + chunk + later, clockOf, k)
           == if ok then Onto(replies, Rest(session.State(), buffer.Contents() + later, clockOf, next)) else LoopCrashed
    {
      buffer.Append(chunk);
      ok, replies, next := DrainBuffer(clockOf, k, later);
    }

    /** One turn of the receive loop, with the replies sent so far. */
    method ReceiveNext(chunks: seq<string>, i: nat, clockOf: nat -> seq<Clock>, k: nat, sent: seq<Reply>, ghost whole: Loop)
      returns (ok: bool, replies: seq<Reply>, next: nat)
      requires Valid() && i < |chunks| && Ahead(whole, sent, session.State(), buffer.Contents(), chunks, i, clockOf, k)
      modifies buffer, buffer.buffer, session.repr
      ensures !ok ==> whole == LoopCrashed
      ensures ok ==> Valid() && fresh(session.repr - old(session.repr)) && !R.Parse(buffer.Contents()).Ok?
      ensures ok ==> buffer.buffer == old(buffer.buffer) || fresh(buffer.buffer)
      ensures ok ==> Ahead(whole, replies, session.State(), buffer.Contents(), chunks, i + 1, clockOf, next)
    {
      ghost var later := B.Concat(chunks[i + 1..]);
      SplitChunk(buffer.Contents(), chunks, i);
      var more;
      ok, more, next := HandleChunk(chunks[i], clockOf, k, later);
      if ok {
        OntoOnto(sent, more, Rest(session.State(), buffer.Contents() + later, clockOf, next));
      }
      replies := sent + more;
    }

    /** handleClientData: however the bytes are split into chunks, the session ends in the
        state, and sends the replies, of running the commands of the whole byte stream. */
    method HandleClientData(chunks: seq<string>, clockOf: nat -> seq<Clock>) returns (ok: bool, replies: seq<Reply>)
      requires Valid() && !R.Parse(buffer.Contents()).Ok?
      modifies buffer, buffer.buffer, session.repr
      ensures ok == Whole(old(session.State()), old(buffer.Contents()) + B.Concat(chunks), clockOf).Looped?
      ensures ok ==> Valid() && Looped(session.State(), replies)
                                == Whole(old(session.State()), old(buffer.Contents()) + B.Concat(chunks), clockOf)
      ensures forall ms :: M.AllSized(ms) && old(buffer.Contents()) + B.Concat(chunks) == M.Bytes(ms) ==>
                ok == RunAll(old(session.State()), Timed(ms, clockOf, 0)).Looped?
                && (ok ==> Looped(session.State(), replies) == RunAll(old(session.State()), Timed(ms, clockOf, 0)))
    {
      ghost var whole := Whole(session.State(), buffer.Contents() + B.Concat(chunks), clockOf);
      var i, next: nat := 0, 0;
      ok, replies := true, [];
      AllAhead(session.State(), buffer.Contents(), chunks, clockOf);
      forall ms | M.AllSized(ms) && buffer.Contents() + B.Concat(chunks) == M.Bytes(ms)
        ensures whole == RunAll(session.State(), Timed(ms, clockOf, 0))
      {
        WholeOfMessages(session.State(), ms, clockOf);
      }
      while i < |chunks|
        invariant i <= |chunks| && ok && Valid() && !R.Parse(buffer.Contents()).Ok?
        invariant fresh(session.repr - old(session.repr)) && (buffer.buffer == old(buffer.buffer) || fresh(buffer.buffer))
        invariant Ahead(whole, replies, session.State(), buffer.Contents(), chunks, i, clockOf, next) == true
      {
        ok, replies, next := ReceiveNext(chunks, i, clockOf, next, replies, whole);
        if !ok {
          return;
        }
        i := i + 1;
      }
      NothingAhead(whole, replies, session.State(), buffer.Contents(), chunks, clockOf, next);
    }
  }

  /** What the whole stream comes to is what was sent, then the chunks from i on. */
  ghost predicate Ahead(whole: Loop, sent: seq<Reply>, s: Server, b: string, chunks: seq<string>, i: nat,
                        clockOf: nat -> seq<Clock>, k: nat)
    requires i <= |chunks|
  {
    Clean(s) && whole == Onto(sent, Rest(s, b + B.Concat(chunks[i..]), clockOf, k))
  }

  lemma AllAhead(s: Server, b: string, chunks: seq<string>, clockOf: nat -> seq<Clock>)
    requires Clean(s)
    ensures Ahead(Whole(s, b + B.Concat(chunks), clockOf), [], s, b, chunks, 0, clockOf, 0)
  {
    assert chunks[0..] == chunks;
    StartLoop(Whole(s, b + B.Concat(chunks), clockOf));
  }

  lemma NothingAhead(whole: Loop, sent: seq<Reply>, s: Server, b: string, chunks: seq<string>,
                     clockOf: nat -> seq<Clock>, k: nat)
    requires Ahead(whole, sent, s, b, chunks, |chunks|, clockOf, k) && !R.Parse(b).Ok?
    ensures whole == Looped(s, sent)
  {
    assert chunks[|chunks|..] == [];
    assert b + B.Concat([]) == b;
    assert sent + [] == sent;
  }

  /** Running every command of a byte stream. */
  ghost function Whole(s: Server, stream: string, clockOf: nat -> seq<Clock>): Loop
    requires Clean(s)
  {
    Rest(s, stream, clockOf, 0)
  }

  // ----- The commands that messages stand for -----

  /** The nonempty arrays among the messages, the k-th with the readings `clockOf(k)`. */
  function Timed(ms: seq<M.Message>, clockOf: nat -> seq<Clock>, k: nat): seq<Input> {
    if ms == [] then []
    else if ms[0].Stray? || ms[0].args == [] then Timed(ms[1..], clockOf, k)
    else [Input(ms[0].args, clockOf(k))] + Timed(ms[1..], clockOf, k + 1)
  }

  lemma ArrayIsCommand(args: seq<string>)
    ensures AsCommand(R.Array(R.Bulks(args))) == if args == [] then None else Some(args)
  {
    var v := R.Array(R.Bulks(args));
    if args != [] {
      assert AsCommand(v).Some?;
      assert AsCommand(v).value == args;
    }
  }

  lemma {:induction false} MessagesAreInputs(ms: seq<M.Message>, clockOf: nat -> seq<Clock>, k: nat)
    ensures Inputs(M.Values(ms), clockOf, k) == Timed(ms, clockOf, k)
    decreases |ms|
  {
    if ms != [] {
      var v, rest := M.ValueOf(ms[0]), M.Values(ms[1..]);
      assert M.Values(ms)[0] == v && M.Values(ms)[1..] == rest;
      if ms[0].Array? {
        ArrayIsCommand(ms[0].args);
      }
      MessagesAreInputs(ms[1..], clockOf, k);
      MessagesAreInputs(ms[1..], clockOf, k + 1);
    }
  }

  /** The bytes of any messages come to running exactly their commands. */
  lemma WholeOfMessages(s: Server, ms: seq<M.Message>, clockOf: nat -> seq<Clock>)
    requires Clean(s) && M.AllSized(ms)
    ensures Whole(s, M.Bytes(ms), clockOf) == RunAll(s, Timed(ms, clockOf, 0))
  {
    M.BytesDrain(ms);
    MessagesAreInputs(ms, clockOf, 0);
  }

  lemma SplitChunk(b: string, chunks: seq<string>, i: nat)
    requires i < |chunks|
    ensures b + B.Concat(chunks[i..]) == b + chunks[i] + B.Concat(chunks[i + 1..])
  {
    assert chunks[i..][1..] == chunks[i + 1..];
    ConcatAssociative(b, chunks[i], B.Concat(chunks[i + 1..]));
  }

  lemma OntoOnto(a: seq<Reply>, b: seq<Reply>, loop: Loop)
    ensures Onto(a, Onto(b, loop)) == Onto(a + b, loop)
  {
    if loop.Looped? {
      ConcatAssociative(a, b, loop.replies);
    }
  }

  /** The whole stream is what was collected, then what is buffered, then what comes later. */
  ghost predicate Draining(whole: Loop, replies: seq<Reply>, s: Server, b: string, later: string,
                           clockOf: nat -> seq<Clock>, k: nat)
  {
    Clean(s) && whole == Onto(replies, Rest(s, b + later, clockOf, k))
  }

  /** The effect of one turn of the drain loop on the session and the buffered bytes. */
  ghost predicate Turn(s: Server, b: string, clocks: seq<Clock>, more: bool, ok: bool, answer: Option<Reply>,
                       s': Server, b': string)
    requires Clean(s)
  {
    var r := R.Parse(b);
    && more == r.Ok? && b' == (if more then b[r.consumed..] else b)
    && if !more || AsCommand(r.value).None? then ok && answer == None && s' == s
       else
         var step := Execute(s, AsCommand(r.value).value, clocks);
         ok == step.Next? && (ok ==> answer.Some? && step == Next(s', answer.value))
  }

  lemma TurnIsStep(s: Server, b: string, later: string, clockOf: nat -> seq<Clock>, k: nat, replies: seq<Reply>,
                   more: bool, ok: bool, answer: Option<Reply>, s': Server, b': string)
    requires Clean(s) && (ok ==> Clean(s')) && Turn(s, b, clockOf(k), more, ok, answer, s', b')
    ensures more ==> |b'| < |b|
    ensures !more ==> ok && !R.Parse(b').Ok?
    ensures Onto(replies, Rest(s, b + later, clockOf, k))
         == if !ok then LoopCrashed
            else if answer.None? then Onto(replies, Rest(s', b' + later, clockOf, k))
            else Onto(replies + [answer.value], Rest(s', b' + later, clockOf, k + 1))
  {
    if more {
      RestStep(s, b, later, clockOf, k, replies);
    }
  }
}
