/** Replaying the propagated commands rebuilds the store (app/command.c:722-734,
    app/replicas.c:43-61). */
module Replication {
  import opened Options
  import opened CText
  import opened Sequences
  import R = Resp
  import B = RespBuffers
  import opened Store
  import SR = StoreRefinement
  import S = Streams
  import P = Replicas
  import L = CommandLaws
  import N = CommandNames
  import opened Commands

  /** A command whose effect does not depend on the clock: no SET with an effective PX
      option and no XADD with the ID "*". */
  predicate ClockFree(cmd: Command) {
    Classify(cmd).Accepted? ==>
      && (Classify(cmd).kind == KSet ==> PxOption(cmd) == 0)
      && (Classify(cmd).kind == KXadd ==> CStr(cmd[2]) != "*")
  }

  // ----- Stores whose contents do not depend on the clock -----

  predicate PlainEntries(es: seq<S.Entry>) {
    forall e :: e in es ==> e.id != "*"
  }

  predicate Plain(x: Item) {
    x.expiry == 0 && (x.value.StreamVal? ==> PlainEntries(x.value.entries))
  }

  ghost predicate PlainTable(t: seq<Chain>) {
    |t| > 0 && forall x :: x in Bag(t) ==> Plain(x)
  }

  lemma PlainFresh()
    ensures PlainTable(Fresh().table)
  {
    BagEmpty(Fresh().table);
  }

  lemma PlainReplace(t: seq<Chain>, b: nat, i: nat, x: Item)
    requires PlainTable(t) && b < |t| && i < |t[b]| && (Plain(t[b][i]) ==> Plain(x))
    ensures PlainTable(Replace(t, b, i, x))
  {
    ReplaceBag(t, b, i, x);
  }

  lemma PlainPrepend(t: seq<Chain>, x: Item)
    requires PlainTable(t) && Plain(x)
    ensures PlainTable(Prepend(t, x))
  {
    PrependBag(t, x);
  }

  lemma PlainAt(t: seq<Chain>, b: nat, i: nat)
    requires PlainTable(t) && b < |t| && i < |t[b]|
    ensures Plain(t[b][i])
  {
    BagIn(t, b);
    assert t[b][i] in t[b];
    assert t[b][i] in Bag(t);
  }

  lemma PlainGrown(st: StoreState)
    requires PlainTable(st.table)
    ensures PlainTable(Grown(st).table)
  {
    var empty := EmptyTable(2 * |st.table|);
    BagEmpty(empty);
    RehashBag(st.table, 0, empty);
    assert st.table[0..] == st.table;
  }

  lemma PlainSet(st: StoreState, key: string, data: string)
    requires PlainTable(st.table)
    ensures PlainTable(Set(st, key, data).table)
  {
    PlainGrown(st);
    var t := Grown(st).table;
    var b := Bucket(key, |t|);
    var i := Index(t[b], key);
    if i < |t[b]| {
      PlainReplace(t, b, i, Item(key, Str(data), t[b][i].expiry));
    } else {
      PlainPrepend(t, Item(key, Str(data), 0));
    }
  }

  lemma PlainLookup(st: StoreState, key: string)
    requires PlainTable(st.table)
    ensures Lookup(st.table, key).Some? ==> Plain(Lookup(st.table, key).value)
  {
    var b := Bucket(key, |st.table|);
    var i := Index(st.table[b], key);
    if i < |st.table[b]| {
      PlainAt(st.table, b, i);
    }
  }

  lemma PlainAdd(es: seq<S.Entry>, call: S.Call)
    requires PlainEntries(es) && call.now < U64
    ensures PlainEntries(S.Add(es, call))
  {
    if S.AddOutcome(es, call).Added? {
      var id := S.ChosenID(es, S.ParseID(call.id, call.now).value, call.now);
      S.GeneratedText(id);
      assert IsDigit(S.GenerateID(id.ms, id.seqNo)[0]);
    }
  }

  lemma PlainStreamAdd(st: StoreState, key: string, call: S.Call)
    requires PlainTable(st.table) && call.now < U64 && StreamAddDefined(st, key)
    ensures PlainTable(StreamAdd(st, key, call).table)
  {
    var t := st.table;
    var b := Bucket(key, |t|);
    var i := Index(t[b], key);
    if i < |t[b]| {
      PlainAt(t, b, i);
      PlainAdd(t[b][i].value.entries, call);
      PlainReplace(t, b, i, t[b][i].(value := StreamVal(S.Add(t[b][i].value.entries, call))));
    } else {
      PlainAdd([], call);
      PlainPrepend(t, Item(key, StreamVal(S.Add([], call)), 0));
    }
  }

  // ----- Handlers on plain stores ignore the clock -----

  lemma TailIgnoresClock(es: seq<S.Entry>, id: S.ID, t1: nat, t2: nat)
    requires PlainEntries(es) && t1 < U64 && t2 < U64
    ensures S.GetNextSequence(es, id.ms, t1) == S.GetNextSequence(es, id.ms, t2)
    ensures S.IsValidNextID(es, id, t1) == S.IsValidNextID(es, id, t2)
  {
    if es != [] {
      assert es[|es| - 1] in es;
      assert S.LastID(es, t1) == S.LastID(es, t2);
    }
  }

  lemma AddIgnoresClock(es: seq<S.Entry>, c1: S.Call, c2: S.Call)
    requires PlainEntries(es) && c1.now < U64 && c2 == c1.(now := c2.now) && c2.now < U64
    requires c1.id != "*"
    ensures S.AddOutcome(es, c1) == S.AddOutcome(es, c2) && S.Add(es, c1) == S.Add(es, c2)
  {
    var p := S.ParseID(c1.id, c1.now);
    assert p == S.ParseID(c2.id, c2.now);
    if p.Some? {
      TailIgnoresClock(es, p.value, c1.now, c2.now);
      TailIgnoresClock(es, S.ChosenID(es, p.value, c1.now), c1.now, c2.now);
    }
  }

  lemma XaddIgnoresClock(st: StoreState, cmd: Command, c1: Clock, c2: Clock)
    requires PlainTable(st.table) && |cmd| >= 4 && CStr(cmd[2]) != "*"
    ensures HandleXadd(st, cmd, c1) == HandleXadd(st, cmd, c2)
    ensures HandleXadd(st, cmd, c1).Ran? ==> PlainTable(HandleXadd(st, cmd, c1).store.table)
  {
    var key := CStr(cmd[1]);
    if StreamAddDefined(st, key) {
      PlainLookup(st, key);
      AddIgnoresClock(StreamOf(st, key), XaddCall(cmd, c1), XaddCall(cmd, c2));
      PlainStreamAdd(st, key, XaddCall(cmd, c1));
    }
  }

  lemma GetIgnoresClock(st: StoreState, key: string, t1: int, t2: int)
    requires PlainTable(st.table)
    ensures Get(st, key, t1) == Get(st, key, t2)
  {
    PlainLookup(st, key);
  }

  lemma IncrStaysPlain(st: StoreState, cmd: Command, clock: Clock)
    requires PlainTable(st.table) && |cmd| >= 2 && HandleIncr(st, cmd, clock).Ran?
    ensures PlainTable(HandleIncr(st, cmd, clock).store.table)
  {
    var key := CStr(cmd[1]);
    match Get(st, key, clock.ms) {
      case None => PlainSet(st, key, "1");
      case Some(v) => PlainSet(st, key, DecSigned(StrToI64(v) + 1));
    }
  }

  lemma IncrIgnoresClock(st: StoreState, cmd: Command, c1: Clock, c2: Clock)
    requires PlainTable(st.table) && |cmd| >= 2
    ensures HandleIncr(st, cmd, c1) == HandleIncr(st, cmd, c2)
    ensures HandleIncr(st, cmd, c1).Ran? ==> PlainTable(HandleIncr(st, cmd, c1).store.table)
  {
    GetIgnoresClock(st, CStr(cmd[1]), c1.ms, c2.ms);
    if HandleIncr(st, cmd, c1).Ran? {
      IncrStaysPlain(st, cmd, c1);
    }
  }

  /** The store after a handler, if it did not crash. */
  function StoreAfter(o: Outcome): Option<StoreState> {
    match o case Ran(st, _) => Some(st) case Crash => None
  }

  lemma HandlerIgnoresClock(st: StoreState, cmd: Command, c1: Clock, c2: Clock)
    requires PlainTable(st.table) && Queueable(cmd) && ClockFree(cmd)
    ensures var k := Classify(cmd).kind;
            && StoreAfter(RunHandler(st, k, cmd, c1)) == StoreAfter(RunHandler(st, k, cmd, c2))
            && (RunHandler(st, k, cmd, c1).Ran? ==> PlainTable(RunHandler(st, k, cmd, c1).store.table))
            && (!Propagates(k, true) ==> StoreAfter(RunHandler(st, k, cmd, c1)) == Some(st))
  {
    match Classify(cmd).kind
    case KSet => PlainSet(st, CStr(cmd[1]), cmd[2]);
    case KXadd => XaddIgnoresClock(st, cmd, c1, c2);
    case KIncr => IncrIgnoresClock(st, cmd, c1, c2);
    case _ =>
  }

  // ----- Replay -----

  ghost predicate Replayable(log: seq<Command>) {
    forall c :: c in log ==> Queueable(c) && ClockFree(c)
  }

  /** The store after one command's handler. */
  function StepStore(st: StoreState, cmd: Command, at: Clock): (r: Option<StoreState>)
    requires |st.table| > 0 && Queueable(cmd)
    ensures r.Some? ==> |r.value.table| > 0
  {
    StoreAfter(RunHandler(st, Classify(cmd).kind, cmd, at))
  }

  /** The handlers applied to a log in order. */
  function ReplayFrom(st: StoreState, log: seq<Command>, at: Clock): (r: Option<StoreState>)
    requires |st.table| > 0 && forall i :: 0 <= i < |log| ==> Queueable(log[i])
    ensures r.Some? ==> |r.value.table| > 0
    decreases |log|
  {
    if log == [] then Some(st)
    else
      match StepStore(st, log[0], at)
      case None => None
      case Some(st') => ReplayFrom(st', log[1..], at)
  }

  lemma {:induction false} ReplaySnoc(st: StoreState, log: seq<Command>, cmd: Command, at: Clock)
    requires |st.table| > 0 && forall c :: c in log ==> Queueable(c)
    requires Queueable(cmd)
    ensures (forall c :: c in log + [cmd] ==> Queueable(c))
    ensures ReplayFrom(st, log + [cmd], at)
         == match ReplayFrom(st, log, at)
            case None => None
            case Some(st') => StepStore(st', cmd, at)
    decreases |log|
  {
    if log == [] {
      ReplayOne(st, cmd, at);
      assert log + [cmd] == [cmd];
    } else {
      assert log[0] in log;
      SnocTail(log, cmd);
      var r := StepStore(st, log[0], at);
      if r.Some? {
        ReplaySnoc(r.value, log[1..], cmd, at);
      }
    }
  }

  lemma ReplayOne(st: StoreState, cmd: Command, at: Clock)
    requires |st.table| > 0 && Queueable(cmd)
    ensures ReplayFrom(st, [cmd], at) == StepStore(st, cmd, at)
  {
    var r := StepStore(st, cmd, at);
    if r.Some? {
      assert ReplayFrom(r.value, [cmd][1..], at) == r;
    }
  }

  /** The store is what its log replays to, and nothing in it depends on the clock. */
  ghost predicate Synced(s: Server, at: Clock) {
    && Clean(s) && s.isMaster
    && PlainTable(s.store.table)
    && Replayable(s.queue) && Replayable(s.log)
    && ReplayFrom(Fresh(), s.log, at) == Some(s.store)
  }

  lemma DirectStaysSynced(s: Server, cmd: Command, clocks: seq<Clock>, at: Clock)
    requires Synced(s, at) && !s.inTx && Queueable(cmd) && ClockFree(cmd)
    ensures Execute(s, cmd, clocks).Next? ==> Synced(Execute(s, cmd, clocks).server, at)
  {
    var k := Classify(cmd).kind;
    HandlerIgnoresClock(s.store, cmd, ClockAt(clocks, 0), at);
    ReplaySnoc(Fresh(), s.log, cmd, at);
    assert Replayable(s.log + [cmd]);
  }

  lemma {:induction false} LoopStaysSynced(s: Server, i: nat, clocks: seq<Clock>, at: Clock)
    requires Synced(s, at) && !s.inTx && i <= |s.queue|
    ensures ExecLoop(s, i, clocks).Looped? ==> Synced(ExecLoop(s, i, clocks).server, at)
    decreases |s.queue| - i
  {
    if i < |s.queue| {
      assert s.queue[i] in s.queue;
      DirectStaysSynced(s, s.queue[i], [ClockAt(clocks, i)], at);
      var r := Execute(s, s.queue[i], [ClockAt(clocks, i)]);
      if r.Next? {
        LoopStaysSynced(r.server, i + 1, clocks, at);
      }
    }
  }

  lemma ExecStaysSynced(s: Server, cmd: Command, clocks: seq<Clock>, at: Clock)
    requires Synced(s, at) && Classify(cmd) == Accepted(KExec)
    ensures Execute(s, cmd, clocks).Next? ==> Synced(Execute(s, cmd, clocks).server, at)
  {
    if s.inTx {
      LoopStaysSynced(s.(inTx := false), 0, clocks, at);
    }
  }

  lemma QueueStaysSynced(s: Server, cmd: Command, clocks: seq<Clock>, at: Clock)
    requires Synced(s, at) && s.inTx && Queueable(cmd) && ClockFree(cmd)
    ensures Execute(s, cmd, clocks).Next? && Synced(Execute(s, cmd, clocks).server, at)
  {
    assert Replayable(s.queue + [cmd]);
  }

  lemma ExecuteStaysSynced(s: Server, cmd: Command, clocks: seq<Clock>, at: Clock)
    requires Synced(s, at) && ClockFree(cmd)
    ensures Execute(s, cmd, clocks).Next? ==> Synced(Execute(s, cmd, clocks).server, at)
  {
    if Queueable(cmd) {
      if s.inTx {
        QueueStaysSynced(s, cmd, clocks, at);
      } else {
        DirectStaysSynced(s, cmd, clocks, at);
      }
    } else if Classify(cmd) == Accepted(KExec) {
      ExecStaysSynced(s, cmd, clocks, at);
    }
  }

  lemma {:induction false} RunStaysSynced(s: Server, inputs: seq<Input>, at: Clock)
    requires Synced(s, at) && forall i :: i in inputs ==> ClockFree(i.cmd)
    ensures RunAll(s, inputs).Looped? ==> Synced(RunAll(s, inputs).server, at)
    decreases |inputs|
  {
    if inputs != [] {
      assert inputs[0] in inputs;
      ExecuteStaysSynced(s, inputs[0].cmd, inputs[0].clocks, at);
      var r := Execute(s, inputs[0].cmd, inputs[0].clocks);
      if r.Next? {
        RunStaysSynced(r.server, inputs[1..], at);
      }
    }
  }

  /** A log sent through executeCommand, each command at whatever time it arrives. */
  function AsInputs(log: seq<Command>, clocks: seq<seq<Clock>>): (r: seq<Input>)
    requires |clocks| == |log|
    ensures |r| == |log|
  {
    if log == [] then [] else [Input(log[0], clocks[0])] + AsInputs(log[1..], clocks[1..])
  }

  lemma {:induction false} ReplayAtAnyTime(s: Server, log: seq<Command>, clocks: seq<seq<Clock>>, at: Clock)
    requires Clean(s) && !s.inTx && PlainTable(s.store.table) && Replayable(log) && |clocks| == |log|
    requires ReplayFrom(s.store, log, at).Some?
    ensures var r := RunAll(s, AsInputs(log, clocks));
            r.Looped? && r.server.store == ReplayFrom(s.store, log, at).value
    decreases |log|
  {
    if log != [] {
      assert log[0] in log;
      HandlerIgnoresClock(s.store, log[0], ClockAt(clocks[0], 0), at);
      var s' := Execute(s, log[0], clocks[0]).server;
      assert AsInputs(log, clocks)[1..] == AsInputs(log[1..], clocks[1..]);
      ReplayAtAnyTime(s', log[1..], clocks[1..], at);
    }
  }

  /** For every run on a master from an empty store whose commands do not read the clock,
      with transactions and with failed INCR and XADD, replaying only the propagated
      commands through executeCommand on an empty store rebuilds the same store, whatever
      the clock says during the replay. */
  lemma LogReplay(inputs: seq<Input>, replicaIsMaster: bool, clocks: seq<seq<Clock>>)
    requires forall i :: i in inputs ==> ClockFree(i.cmd)
    requires RunAll(Start(true), inputs).Looped?
    requires |clocks| == |RunAll(Start(true), inputs).server.log|
    ensures var s := RunAll(Start(true), inputs).server;
            var r := RunAll(Start(replicaIsMaster), AsInputs(s.log, clocks));
            r.Looped? && r.server.store == s.store
  {
    PlainFresh();
    var at: Clock :| true;
    RunStaysSynced(Start(true), inputs, at);
    ReplayAtAnyTime(Start(replicaIsMaster), RunAll(Start(true), inputs).server.log, clocks, at);
  }

  // ----- The bytes on the wire -----

  lemma {:induction false} LoopLogs(s: Server, i: nat, clocks: seq<Clock>, all: set<Command>)
    requires Clean(s) && !s.inTx && i <= |s.queue|
    requires forall c :: c in s.queue || c in s.log ==> c in all
    ensures ExecLoop(s, i, clocks).Looped? ==> forall c :: c in ExecLoop(s, i, clocks).server.log ==> c in all
    decreases |s.queue| - i
  {
    if i < |s.queue| {
      assert s.queue[i] in s.queue;
      var r := Execute(s, s.queue[i], [ClockAt(clocks, i)]);
      if r.Next? {
        LoopLogs(r.server, i + 1, clocks, all);
      }
    }
  }

  lemma ExecuteLogs(s: Server, cmd: Command, clocks: seq<Clock>, all: set<Command>)
    requires Clean(s) && cmd in all
    requires forall c :: c in s.queue || c in s.log ==> c in all
    ensures Execute(s, cmd, clocks).Next? ==>
              var s' := Execute(s, cmd, clocks).server;
              forall c :: c in s'.queue || c in s'.log ==> c in all
  {
    if Classify(cmd) == Accepted(KExec) && s.inTx {
      LoopLogs(s.(inTx := false), 0, clocks, all);
    }
  }

  /** Only commands that were received are ever propagated. */
  lemma {:induction false} RunLogs(s: Server, inputs: seq<Input>, all: set<Command>)
    requires Clean(s) && forall i :: i in inputs ==> i.cmd in all
    requires forall c :: c in s.queue || c in s.log ==> c in all
    ensures RunAll(s, inputs).Looped? ==> forall c :: c in RunAll(s, inputs).server.log ==> c in all
    decreases |inputs|
  {
    if inputs != [] {
      assert inputs[0] in inputs;
      ExecuteLogs(s, inputs[0].cmd, inputs[0].clocks, all);
      var r := Execute(s, inputs[0].cmd, inputs[0].clocks);
      if r.Next? {
        RunLogs(r.server, inputs[1..], all);
      }
    }
  }

  /** A command that changes the store, by its name. */
  predicate IsWrite(cmd: Command) {
    cmd != [] && (N.Spelled(CStr(cmd[0]), "SET") || N.Spelled(CStr(cmd[0]), "INCR") || N.Spelled(CStr(cmd[0]), "XADD"))
  }

  lemma WriteIsNamed(cmd: Command)
    requires Classify(cmd).Accepted?
    requires Classify(cmd).kind == KSet || Classify(cmd).kind == KIncr || Classify(cmd).kind == KXadd
    ensures IsWrite(cmd)
  {
    N.ClassifyIs(cmd);
    N.KindIsNamed(CStr(cmd[0]), N.Reference(CStr(cmd[0])));
  }

  ghost predicate LogsWrites(s: Server) {
    forall c :: c in s.log ==> IsWrite(c)
  }

  lemma DirectLogsWrites(s: Server, cmd: Command, clocks: seq<Clock>)
    requires Clean(s) && !s.inTx && Queueable(cmd) && LogsWrites(s)
    ensures Execute(s, cmd, clocks).Next? ==> LogsWrites(Execute(s, cmd, clocks).server)
  {
    var k := Classify(cmd).kind;
    if k == KSet || k == KIncr || k == KXadd {
      WriteIsNamed(cmd);
    }
  }

  lemma {:induction false} LoopLogsWrites(s: Server, i: nat, clocks: seq<Clock>)
    requires Clean(s) && !s.inTx && i <= |s.queue| && LogsWrites(s)
    ensures ExecLoop(s, i, clocks).Looped? ==> LogsWrites(ExecLoop(s, i, clocks).server)
    decreases |s.queue| - i
  {
    if i < |s.queue| {
      assert s.queue[i] in s.queue;
      DirectLogsWrites(s, s.queue[i], [ClockAt(clocks, i)]);
      var r := Execute(s, s.queue[i], [ClockAt(clocks, i)]);
      if r.Next? {
        LoopLogsWrites(r.server, i + 1, clocks);
      }
    }
  }

  lemma ExecuteLogsWrites(s: Server, cmd: Command, clocks: seq<Clock>)
    requires Clean(s) && LogsWrites(s)
    ensures Execute(s, cmd, clocks).Next? ==> LogsWrites(Execute(s, cmd, clocks).server)
  {
    if Classify(cmd) == Accepted(KExec) && s.inTx {
      LoopLogsWrites(s.(inTx := false), 0, clocks);
    } else if Queueable(cmd) && !s.inTx {
      DirectLogsWrites(s, cmd, clocks);
    }
  }

  /** Nothing but SET, INCR and XADD is ever propagated. */
  lemma {:induction false} RunLogsWrites(s: Server, inputs: seq<Input>)
    requires Clean(s) && LogsWrites(s)
    ensures RunAll(s, inputs).Looped? ==> LogsWrites(RunAll(s, inputs).server)
    decreases |inputs|
  {
    if inputs != [] {
      ExecuteLogsWrites(s, inputs[0].cmd, inputs[0].clocks);
      var r := Execute(s, inputs[0].cmd, inputs[0].clocks);
      if r.Next? {
        RunLogsWrites(r.server, inputs[1..]);
      }
    }
  }

  /** A replica that is listed when the master starts and whose writes succeed: the bytes
      it is sent while others join, fail and are dropped, in whatever chunks they arrive,
      decode to exactly the propagated log when the commands received were NUL-free with
      int-range lengths, and running what was decoded rebuilds the master's store. */
  lemma ReplicaRebuildsStore(inputs: seq<Input>, rs: seq<P.Replica>, fd: int, events: seq<P.Event>,
                             chunks: seq<string>, replicaIsMaster: bool, clocks: seq<seq<Clock>>)
    requires forall i :: i in inputs ==> ClockFree(i.cmd) && R.Transmissible(i.cmd)
    requires RunAll(Start(true), inputs).Looped?
    requires P.DistinctFds(rs) && fd in P.Fds(rs) && P.Served(rs, fd, events)
    requires P.Commands(events) == RunAll(Start(true), inputs).server.log
    requires B.Concat(chunks) == P.Sent(rs, fd, events)
    requires |clocks| == |RunAll(Start(true), inputs).server.log|
    ensures var s := RunAll(Start(true), inputs).server;
            && B.Feed("", chunks) == B.Drained(B.Arrays(s.log), "")
            && var r := RunAll(Start(replicaIsMaster), AsInputs(s.log, clocks));
               r.Looped? && r.server.store == s.store
  {
    var s := RunAll(Start(true), inputs).server;
    var all := set i | i in inputs :: i.cmd;
    RunLogs(Start(true), inputs, all);
    P.PresentIsSentEverything(rs, fd, events);
    B.PrintedDecodesIff(s.log, chunks);
    LogReplay(inputs, replicaIsMaster, clocks);
  }

  // ----- Why the clock matters -----

  /** SET leaves the same store at two clock readings if and only if it has no effective PX
      option or the readings agree. */
  lemma SetClockIff(st: StoreState, cmd: Command, c1: Clock, c2: Clock)
    requires WellFormed(st) && |cmd| >= 3
    ensures HandleSet(st, cmd, c1).store == HandleSet(st, cmd, c2).store <==> PxOption(cmd) == 0 || c1.ms == c2.ms
  {
    var key, data, px := CStr(cmd[1]), cmd[2], PxOption(cmd);
    if px != 0 {
      L.SetStorePx(st, key, data, px, c1);
      L.SetStorePx(st, key, data, px, c2);
      SR.SetWithExpiry(st, key, data, c1.ms + px, c2.ms + px);
    }
  }

  lemma StreamAddDiffers(st: StoreState, key: string, c1: S.Call, c2: S.Call)
    requires WellFormed(st) && StreamAddDefined(st, key) && c1.now < U64 && c2.now < U64
    ensures StreamAdd(st, key, c1) == StreamAdd(st, key, c2)
       <==> S.Add(StreamOf(st, key), c1) == S.Add(StreamOf(st, key), c2)
  {
    if S.Add(StreamOf(st, key), c1) != S.Add(StreamOf(st, key), c2) {
      AddedStream(st, key, c1);
      AddedStream(st, key, c2);
    }
  }

  lemma AddedStream(st: StoreState, key: string, c: S.Call)
    requires WellFormed(st) && StreamAddDefined(st, key) && c.now < U64
    ensures GetStream(StreamAdd(st, key, c), key) == Some(S.Add(StreamOf(st, key), c))
  {
    AbsLookup(st.table, key);
    SR.StreamAddRefines(st, key, c);
    SR.ReadsRefine(StreamAdd(st, key, c), key, 0);
  }

  /** XADD with "*" leaves the same store at two clock readings if and only if the readings
      agree or the stream has room for a new ID at neither. */
  lemma XaddClockIff(st: StoreState, cmd: Command, c1: Clock, c2: Clock)
    requires WellFormed(st) && |cmd| >= 4 && CStr(cmd[2]) == "*"
    requires StreamAddDefined(st, CStr(cmd[1])) && S.Ordered(StreamOf(st, CStr(cmd[1])))
    ensures var es, r1, r2 := StreamOf(st, CStr(cmd[1])), HandleXadd(st, cmd, c1), HandleXadd(st, cmd, c2);
            && r1.Ran? && r2.Ran?
            && (r1.store == r2.store <==> c1.ms == c2.ms || (!S.Room(es, c1.ms) && !S.Room(es, c2.ms)))
  {
    var key, call1, call2 := CStr(cmd[1]), XaddCall(cmd, c1), XaddCall(cmd, c2);
    S.StarOutcome(StreamOf(st, key), call1);
    S.StarOutcome(StreamOf(st, key), call2);
    S.StarClockIff(StreamOf(st, key), call1, call2);
    StreamAddDiffers(st, key, call1, call2);
  }
}
