/** Streams stay ordered through every run of commands whose accepted XADD IDs fit the print
    buffer (app/command.c:108-138, app/stream.c:156-268). */
module OrderedStreams {
  import opened Options
  import opened CText
  import opened Store
  import SR = StoreRefinement
  import S = Streams
  import opened Commands
  import L = CommandLaws
  import P = Replication
  import opened MapServer

  ghost predicate OrderedMap(m: Model) {
    forall k :: k in m && m[k].value.StreamVal? ==> S.Ordered(m[k].value.entries)
  }

  function EntriesUnder(m: Model, key: string): seq<S.Entry> {
    if key in m && m[key].value.StreamVal? then m[key].value.entries else []
  }

  /** If the command is an XADD whose ID is accepted, that ID prints in 31 characters. */
  predicate CommandFits(m: Model, cmd: Command, clock: Clock) {
    Classify(cmd) == Accepted(KXadd) ==> S.CallFits(EntriesUnder(m, CStr(cmd[1])), XaddCall(cmd, clock))
  }

  predicate FoldFits(s: MServer, cmds: seq<Command>, i: nat, clocks: seq<Clock>)
    requires i <= |cmds|
    decreases |cmds| - i
  {
    i < |cmds| ==>
      var r := MDirect(s, cmds[i], ClockAt(clocks, i));
      && CommandFits(s.cells, cmds[i], ClockAt(clocks, i))
      && (r.MNext? ==> FoldFits(r.server, cmds, i + 1, clocks))
  }

  predicate StepFits(s: MServer, input: Input) {
    if Classify(input.cmd) == Accepted(KExec) && s.inTx then
      FoldFits(s.(inTx := false), s.queue, 0, input.clocks)
    else !s.inTx ==> CommandFits(s.cells, input.cmd, ClockAt(input.clocks, 0))
  }

  /** Every ID that XADD accepts in the run fits. */
  predicate RunFits(s: MServer, inputs: seq<Input>)
    decreases |inputs|
  {
    inputs != [] ==>
      var r := MExecute(s, inputs[0].cmd, inputs[0].clocks);
      StepFits(s, inputs[0]) && (r.MNext? ==> RunFits(r.server, inputs[1..]))
  }

  lemma XaddKeepsOrder(m: Model, cmd: Command, clock: Clock)
    requires OrderedMap(m) && |cmd| >= 4 && MXadd(m, cmd, clock).MRan?
    requires S.CallFits(EntriesUnder(m, CStr(cmd[1])), XaddCall(cmd, clock))
    ensures OrderedMap(MXadd(m, cmd, clock).cells)
  {
    S.AddKeepsOrder(EntriesUnder(m, CStr(cmd[1])), XaddCall(cmd, clock));
  }

  lemma SetKeepsOrder(m: Model, key: string, data: string)
    requires OrderedMap(m)
    ensures OrderedMap(SR.MSet(m, key, data))
  {
  }

  lemma ExpireKeepsOrder(m: Model, key: string, expiry: int)
    requires OrderedMap(m)
    ensures OrderedMap(SR.MExpire(m, key, expiry))
  {
  }

  lemma HandlerKeepsOrder(m: Model, k: Kind, cmd: Command, clock: Clock)
    requires OrderedMap(m) && |cmd| >= Reads(k) && MHandler(m, k, cmd, clock).MRan?
    requires k == KXadd ==> S.CallFits(EntriesUnder(m, CStr(cmd[1])), XaddCall(cmd, clock))
    ensures OrderedMap(MHandler(m, k, cmd, clock).cells)
  {
    match k
    case KSet =>
      var m' := SR.MSet(m, CStr(cmd[1]), cmd[2]);
      SetKeepsOrder(m, CStr(cmd[1]), cmd[2]);
      ExpireKeepsOrder(m', CStr(cmd[1]), clock.ms + PxOption(cmd));
    case KXadd => XaddKeepsOrder(m, cmd, clock);
    case KIncr =>
      SetKeepsOrder(m, CStr(cmd[1]), "1");
      var v := SR.MGet(m, CStr(cmd[1]), clock.ms);
      if v.Some? {
        SetKeepsOrder(m, CStr(cmd[1]), DecSigned(StrToI64(v.value) + 1));
      }
    case _ =>
  }

  lemma DirectKeepsOrder(s: MServer, cmd: Command, clock: Clock)
    requires OrderedMap(s.cells) && CommandFits(s.cells, cmd, clock)
    ensures MDirect(s, cmd, clock).MNext? ==> OrderedMap(MDirect(s, cmd, clock).server.cells)
  {
    var v := Classify(cmd);
    if v.Accepted? && MHandler(s.cells, v.kind, cmd, clock).MRan? {
      HandlerKeepsOrder(s.cells, v.kind, cmd, clock);
    }
  }

  lemma {:induction false} FoldKeepsOrder(s: MServer, cmds: seq<Command>, i: nat, clocks: seq<Clock>)
    requires i <= |cmds| && OrderedMap(s.cells) && FoldFits(s, cmds, i, clocks)
    ensures MFold(s, cmds, i, clocks).MLooped? ==> OrderedMap(MFold(s, cmds, i, clocks).server.cells)
    decreases |cmds| - i
  {
    if i < |cmds| {
      DirectKeepsOrder(s, cmds[i], ClockAt(clocks, i));
      var r := MDirect(s, cmds[i], ClockAt(clocks, i));
      if r.MNext? {
        FoldKeepsOrder(r.server, cmds, i + 1, clocks);
      }
    }
  }

  lemma ExecuteKeepsOrder(s: MServer, input: Input)
    requires OrderedMap(s.cells) && StepFits(s, input)
    ensures var r := MExecute(s, input.cmd, input.clocks); r.MNext? ==> OrderedMap(r.server.cells)
  {
    if Classify(input.cmd) == Accepted(KExec) && s.inTx {
      FoldKeepsOrder(s.(inTx := false), s.queue, 0, input.clocks);
    } else if !s.inTx {
      DirectKeepsOrder(s, input.cmd, ClockAt(input.clocks, 0));
    }
  }

  lemma {:induction false} RunKeepsStreamsOrdered(s: MServer, inputs: seq<Input>)
    requires OrderedMap(s.cells) && RunFits(s, inputs)
    ensures MRunAll(s, inputs).MLooped? ==> OrderedMap(MRunAll(s, inputs).server.cells)
    decreases |inputs|
  {
    if inputs != [] {
      ExecuteKeepsOrder(s, inputs[0]);
      var r := MExecute(s, inputs[0].cmd, inputs[0].clocks);
      if r.MNext? {
        RunKeepsStreamsOrdered(r.server, inputs[1..]);
      }
    }
  }

  /** After every run from a new server whose accepted XADD IDs fit, transactions included,
      the store is well-formed and each of its streams is ordered. */
  lemma ReachableStreamsOrdered(inputs: seq<Input>, isMaster: bool, key: string)
    requires RunAll(Start(isMaster), inputs).Looped? && RunFits(MStart(isMaster), inputs)
    ensures var st := RunAll(Start(isMaster), inputs).server.store;
            && WellFormed(st)
            && (GetStream(st, key).Some? ==> S.Ordered(GetStream(st, key).value))
            && (StreamAddDefined(st, key) ==> S.Ordered(StreamOf(st, key)))
  {
    ReachableStoreIsMap(inputs, isMaster, key, 0);
    RunKeepsStreamsOrdered(MStart(isMaster), inputs);
  }

  // ----- The laws of XADD on every reachable store -----

  /** After such a run, XADD and then XRANGE over everything. */
  lemma ReachableXaddThenXrange(inputs: seq<Input>, isMaster: bool, cmd: Command, clock: Clock, now: nat)
    requires RunAll(Start(isMaster), inputs).Looped? && RunFits(MStart(isMaster), inputs)
    requires |cmd| >= 4 && now < U64 && HandleXadd(RunAll(Start(isMaster), inputs).server.store, cmd, clock).Ran?
    requires S.CallFits(StreamOf(RunAll(Start(isMaster), inputs).server.store, CStr(cmd[1])), XaddCall(cmd, clock))
    ensures var st, call := RunAll(Start(isMaster), inputs).server.store, XaddCall(cmd, clock);
            var r, es := HandleXadd(st, cmd, clock), StreamOf(st, CStr(cmd[1]));
            var es' := S.Add(es, call);
            && GetStream(r.store, CStr(cmd[1])) == Some(es')
            && S.Range(es', "-", "+", now) == es'
            && match S.AddOutcome(es, call)
               case Added(id) => es' == es + [S.Entry(id, call.fields, call.values)] && r.reply == BulkReply(id)
               case _ => es' == es
  {
    var st, key := RunAll(Start(isMaster), inputs).server.store, CStr(cmd[1]);
    ReachableStreamsOrdered(inputs, isMaster, key);
    StreamUnderIs(st, key);
    L.XaddThenXrange(st, cmd, clock, now, StreamOf(st, key));
  }

  lemma StreamUnderIs(st: StoreState, key: string)
    requires |st.table| > 0 && StreamAddDefined(st, key)
    ensures L.StreamUnder(st, key) == Some(StreamOf(st, key))
  {
    AbsLookup(st.table, key);
  }

  /** After such a run, XADD with "*" at two clock readings. */
  lemma ReachableXaddClockIff(inputs: seq<Input>, isMaster: bool, cmd: Command, c1: Clock, c2: Clock)
    requires RunAll(Start(isMaster), inputs).Looped? && RunFits(MStart(isMaster), inputs)
    requires |cmd| >= 4 && CStr(cmd[2]) == "*"
    requires StreamAddDefined(RunAll(Start(isMaster), inputs).server.store, CStr(cmd[1]))
    ensures var st := RunAll(Start(isMaster), inputs).server.store;
            var es, r1, r2 := StreamOf(st, CStr(cmd[1])), HandleXadd(st, cmd, c1), HandleXadd(st, cmd, c2);
            && S.Ordered(es) && r1.Ran? && r2.Ran?
            && (r1.store == r2.store <==> c1.ms == c2.ms || (!S.Room(es, c1.ms) && !S.Room(es, c2.ms)))
  {
    ReachableStreamsOrdered(inputs, isMaster, CStr(cmd[1]));
    P.XaddClockIff(RunAll(Start(isMaster), inputs).server.store, cmd, c1, c2);
  }
}
