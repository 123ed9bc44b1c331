/** Two short transactions whose EXEC does what no direct run does (app/command.c:371-385,
    app/resp.c:367-404). */
module ExecRuns {
  import opened CText
  import R = Resp
  import opened Store
  import SR = StoreRefinement
  import opened Commands
  import opened Transactions
  import ER = ExecReplies
  import N = CommandNames

  // ----- A transaction of one command -----

  lemma OneQueued(c: Input, r: Reply)
    requires Queueable(c.cmd)
    ensures QueuedReplies([c], [r]) == [r]
  {
    assert [c][1..] == [] && [r][1..] == [];
    assert QueuedReplies([], []) == [];
  }

  lemma OneDirect(c: Input, clocks: seq<Clock>)
    requires Queueable(c.cmd)
    ensures Direct([c], clocks, 0) == [Input(c.cmd, [ClockAt(clocks, 0)])]
  {
    assert [c][1..] == [];
  }

  /** The direct run of one command that does not crash. */
  lemma OneRun(s: Server, c: Input, clocks: seq<Clock>)
    requires Between(s) && !s.inTx && Queueable(c.cmd)
    requires Execute(s, c.cmd, [ClockAt(clocks, 0)]).Next?
    ensures var d, r := RunAll(s, Direct([c], clocks, 0)), Execute(s, c.cmd, [ClockAt(clocks, 0)]).reply;
            d.Looped? && d.replies == [r] && QueuedReplies([c], d.replies) == [r]
  {
    OneDirect(c, clocks);
    RunOne(s, Input(c.cmd, [ClockAt(clocks, 0)]));
    OneQueued(c, Execute(s, c.cmd, [ClockAt(clocks, 0)]).reply);
  }

  /** In any state, a transaction of one GET that finds nothing: directly it answers a null
      bulk string, but EXEC prints a value that was never initialised. */
  lemma MissedGetInTransaction(s: Server, multi: Input, get: Input, exec: Input)
    requires Between(s) && !s.inTx && Is(multi.cmd, KMulti) && Is(get.cmd, KGet) && Is(exec.cmd, KExec)
    requires Get(s.store, CStr(get.cmd[1]), ClockAt(exec.clocks, 0).ms).None?
    ensures var t := RunAll(s, [multi] + [get] + [exec]);
            t.Looped? && t.replies[|t.replies| - 1] == Undefined
    ensures Execute(s, get.cmd, [ClockAt(exec.clocks, 0)]) == Next(s, Text(R.NULL_BULK))
  {
    OneRun(s, get, exec.clocks);
    TransactionIsDirectRun(s, multi, [get], exec);
    NullIsUndefined();
  }

  lemma NullIsUndefined()
    ensures ExecReply([Text(R.NULL_BULK)]) == Undefined
  {
    ER.NullDoesNotSurvive();
    var rs := [Text(R.NULL_BULK)];
    assert rs[0] in rs && Garbles(rs[0]);
  }

  /** So it happens to a client of a new server. */
  lemma MissedGetFromStart(key: string, clock: Clock, isMaster: bool)
    ensures var t := RunAll(Start(isMaster),
                            [Input(["MULTI"], [])] + [Input(["GET", key], [])] + [Input(["EXEC"], [clock])]);
            t.Looped? && t.replies[|t.replies| - 1] == Undefined
  {
    N.MultiIsMulti(["MULTI"]);
    N.GetIsGet(["GET", key]);
    N.ExecIsExec(["EXEC"]);
    SR.FreshRefines();
    SR.ReadsRefine(Fresh(), CStr(key), clock.ms);
    MissedGetInTransaction(Start(isMaster), Input(["MULTI"], []), Input(["GET", key], []), Input(["EXEC"], [clock]));
  }

  /** In any state, a transaction of one REPLCONF ACK crashes; directly it answers nothing. */
  lemma AckInTransaction(s: Server, multi: Input, ack: Input, exec: Input)
    requires Between(s) && !s.inTx && Is(multi.cmd, KMulti) && Is(ack.cmd, KReplconf) && Is(exec.cmd, KExec)
    requires SameName(CStr(ack.cmd[1]), "ACK")
    ensures RunAll(s, [multi] + [ack] + [exec]) == LoopCrashed
    ensures Execute(s, ack.cmd, [ClockAt(exec.clocks, 0)]) == Next(s, Silent)
  {
    assert ReplconfReply(ack.cmd) == Silent;
    OneRun(s, ack, exec.clocks);
    TransactionIsDirectRun(s, multi, [ack], exec);
    assert [Silent][0] == Silent;
  }

  /** So it happens to any client. */
  lemma AckFromStart(offset: string, clock: Clock, isMaster: bool)
    ensures RunAll(Start(isMaster), [Input(["MULTI"], [])] + [Input(["REPLCONF", "ACK", offset], [])]
                                    + [Input(["EXEC"], [clock])]) == LoopCrashed
  {
    var ack: Command := ["REPLCONF", "ACK", offset];
    N.MultiIsMulti(["MULTI"]);
    N.ExecIsExec(["EXEC"]);
    N.ReplconfIsReplconf(ack);
    AckSpelled(ack);
    AckInTransaction(Start(isMaster), Input(["MULTI"], []), Input(ack, []), Input(["EXEC"], [clock]));
  }

  lemma AckSpelled(cmd: Command)
    requires |cmd| >= 2 && cmd[1] == "ACK"
    ensures SameName(CStr(cmd[1]), "ACK")
  {
    assert NulFree(cmd[1]);
    assert Upper(cmd[1]) == cmd[1];
  }
}
