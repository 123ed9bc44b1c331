/** Replaying the propagated commands at the times at which they ran (app/command.c:722-734):
    then PX and "*" need no exception. */
module TimedReplay {
  import opened Sequences
  import opened Store
  import opened Commands
  import T = Transactions

  function Logged(inputs: seq<Input>): seq<Command> {
    if inputs == [] then [] else [inputs[0].cmd] + Logged(inputs[1..])
  }

  /** A queueable command with its clock reading if the server propagates it, and nothing
      otherwise. */
  function Entry(cmd: Command, clock: Clock): seq<Input>
    requires Queueable(cmd)
  {
    if Propagates(Classify(cmd).kind, true) then [Input(cmd, [clock])] else []
  }

  function LoopLog(queue: seq<Command>, i: nat, clocks: seq<Clock>): seq<Input>
    requires i <= |queue| && forall c :: c in queue ==> Queueable(c)
    decreases |queue| - i
  {
    if i == |queue| then []
    else assert queue[i] in queue; Entry(queue[i], ClockAt(clocks, i)) + LoopLog(queue, i + 1, clocks)
  }

  /** What one command adds to the log, each entry with the clock reading it ran at. */
  function StepLog(s: Server, input: Input): seq<Input>
    requires Clean(s)
  {
    if Queueable(input.cmd) && !s.inTx then Entry(input.cmd, ClockAt(input.clocks, 0))
    else if Classify(input.cmd) == Accepted(KExec) && s.inTx then LoopLog(s.queue, 0, input.clocks)
    else []
  }

  /** The log of a run, with clock readings. */
  function RunLog(s: Server, inputs: seq<Input>): seq<Input>
    requires Clean(s)
    decreases |inputs|
  {
    if inputs == [] then []
    else
      match Execute(s, inputs[0].cmd, inputs[0].clocks)
      case Crashed => []
      case Next(s', _) => StepLog(s, inputs[0]) + RunLog(s', inputs[1..])
  }

  /** Running `log` from a start, outside any transaction, rebuilds the server's store. */
  ghost predicate Mirrors(s: Server, log: seq<Input>, start: Server) {
    && s.isMaster && s.log == Logged(log)
    && Clean(start) && !start.inTx
    && var r := RunAll(start, log);
       r.Looped? && r.server.store == s.store && !r.server.inTx
  }

  lemma {:induction false} LoggedConcat(a: seq<Input>, b: seq<Input>)
    ensures Logged(a + b) == Logged(a) + Logged(b)
    decreases |a|
  {
    if a == [] {
      assert a + b == b;
    } else {
      assert (a + b)[1..] == a[1..] + b;
      LoggedConcat(a[1..], b);
    }
  }

  /** A handler whose command is not propagated leaves the store alone. */
  lemma QuietHandler(st: StoreState, k: Kind, cmd: Command, clock: Clock)
    requires |st.table| > 0 && |cmd| >= Reads(k) && !Propagates(k, true)
    ensures RunHandler(st, k, cmd, clock).Ran? && RunHandler(st, k, cmd, clock).store == st
  {
  }

  lemma DirectMirrors(s: Server, cmd: Command, clocks: seq<Clock>, log: seq<Input>, start: Server)
    requires Clean(s) && !s.inTx && Queueable(cmd) && Mirrors(s, log, start)
    requires Execute(s, cmd, clocks).Next?
    ensures Mirrors(Execute(s, cmd, clocks).server, log + Entry(cmd, ClockAt(clocks, 0)), start)
  {
    var k, clock := Classify(cmd).kind, ClockAt(clocks, 0);
    if Propagates(k, true) {
      var entry := Input(cmd, [clock]);
      LoggedConcat(log, [entry]);
      assert Logged([entry]) == [cmd];
      T.RunAppend(start, log, [entry]);
      T.RunOne(RunAll(start, log).server, entry);
    } else {
      QuietHandler(s.store, k, cmd, clock);
      assert log + [] == log;
    }
  }

  lemma {:induction false} LoopMirrors(s: Server, i: nat, clocks: seq<Clock>, log: seq<Input>, start: Server)
    requires Clean(s) && !s.inTx && i <= |s.queue| && Mirrors(s, log, start)
    requires ExecLoop(s, i, clocks).Looped?
    ensures Mirrors(ExecLoop(s, i, clocks).server, log + LoopLog(s.queue, i, clocks), start)
    decreases |s.queue| - i
  {
    if i == |s.queue| {
      assert log + [] == log;
    } else {
      assert s.queue[i] in s.queue;
      var entry := Entry(s.queue[i], ClockAt(clocks, i));
      DirectMirrors(s, s.queue[i], [ClockAt(clocks, i)], log, start);
      var s' := Execute(s, s.queue[i], [ClockAt(clocks, i)]).server;
      LoopMirrors(s', i + 1, clocks, log + entry, start);
      ConcatAssociative(log, entry, LoopLog(s.queue, i + 1, clocks));
    }
  }

  lemma ExecuteMirrors(s: Server, input: Input, log: seq<Input>, start: Server)
    requires Clean(s) && Mirrors(s, log, start) && Execute(s, input.cmd, input.clocks).Next?
    ensures Mirrors(Execute(s, input.cmd, input.clocks).server, log + StepLog(s, input), start)
  {
    if Queueable(input.cmd) && !s.inTx {
      DirectMirrors(s, input.cmd, input.clocks, log, start);
    } else if Classify(input.cmd) == Accepted(KExec) && s.inTx {
      LoopMirrors(s.(inTx := false), 0, input.clocks, log, start);
    } else {
      assert log + [] == log;
    }
  }

  lemma {:induction false} RunMirrors(s: Server, inputs: seq<Input>, log: seq<Input>, start: Server)
    requires Clean(s) && Mirrors(s, log, start) && RunAll(s, inputs).Looped?
    ensures Mirrors(RunAll(s, inputs).server, log + RunLog(s, inputs), start)
    decreases |inputs|
  {
    if inputs == [] {
      assert log + [] == log;
    } else {
      ExecuteMirrors(s, inputs[0], log, start);
      var s' := Execute(s, inputs[0].cmd, inputs[0].clocks).server;
      RunMirrors(s', inputs[1..], log + StepLog(s, inputs[0]), start);
      ConcatAssociative(log, StepLog(s, inputs[0]), RunLog(s', inputs[1..]));
    }
  }

  /** For every run on a master from an empty store, with any PX options, "*" IDs and
      transactions, sending the propagated commands to an empty store, each at the clock
      reading it first ran at, rebuilds the same store. */
  lemma LogReplaysAtItsTimes(inputs: seq<Input>, replicaIsMaster: bool)
    requires RunAll(Start(true), inputs).Looped?
    ensures var s, log := RunAll(Start(true), inputs).server, RunLog(Start(true), inputs);
            && Logged(log) == s.log
            && RunAll(Start(replicaIsMaster), log).Looped?
            && RunAll(Start(replicaIsMaster), log).server.store == s.store
  {
    RunMirrors(Start(true), inputs, [], Start(replicaIsMaster));
    assert [] + RunLog(Start(true), inputs) == RunLog(Start(true), inputs);
  }
}
