/** A transaction equals a direct run, and its reply is the direct replies in one array. */
module Transactions {
  import opened Sequences
  import R = Resp
  import opened Commands

  predicate NoTransactionCommands(cs: seq<Input>) {
    forall c :: c in cs ==> !IsTransactionCommand(c.cmd)
  }

  /** The commands of a list that a transaction accepts into its queue. */
  function Queued(cs: seq<Input>): seq<Command> {
    if cs == [] then []
    else (if Queueable(cs[0].cmd) then [cs[0].cmd] else []) + Queued(cs[1..])
  }

  /** The same list sent outside a transaction, where the i-th queueable command takes the
      clock reading that EXEC's i-th step takes. */
  function Direct(cs: seq<Input>, clocks: seq<Clock>, i: nat): (r: seq<Input>)
    ensures |r| == |cs|
  {
    if cs == [] then []
    else if Queueable(cs[0].cmd) then [Input(cs[0].cmd, [ClockAt(clocks, i)])] + Direct(cs[1..], clocks, i + 1)
    else [cs[0]] + Direct(cs[1..], clocks, i)
  }

  /** The replies to the queueable commands of a list. */
  function QueuedReplies(cs: seq<Input>, replies: seq<Reply>): seq<Reply>
    requires |cs| == |replies|
  {
    if cs == [] then []
    else (if Queueable(cs[0].cmd) then [replies[0]] else []) + QueuedReplies(cs[1..], replies[1..])
  }

  // ----- Runs compose -----

  function Andthen(r: Loop, inputs: seq<Input>): Loop
    requires r.Looped? ==> Clean(r.server)
  {
    match r
    case LoopCrashed => LoopCrashed
    case Looped(s, replies) =>
      match RunAll(s, inputs)
      case LoopCrashed => LoopCrashed
      case Looped(s', more) => Looped(s', replies + more)
  }

  lemma {:induction false} RunAppend(s: Server, a: seq<Input>, b: seq<Input>)
    requires Clean(s)
    ensures RunAll(s, a + b) == Andthen(RunAll(s, a), b)
    decreases |a|
  {
    if a == [] {
      assert a + b == b;
      var r := RunAll(s, b);
      assert r.Looped? ==> [] + r.replies == r.replies;
    } else {
      var first := Execute(s, a[0].cmd, a[0].clocks);
      assert (a + b)[1..] == a[1..] + b;
      if first.Next? {
        RunAppend(first.server, a[1..], b);
        AndthenCons(first.reply, RunAll(first.server, a[1..]), b);
      }
    }
  }

  lemma AndthenCons(reply: Reply, r: Loop, b: seq<Input>)
    requires r.Looped? ==> Clean(r.server)
    ensures r.Looped? ==>
              Andthen(Looped(r.server, [reply] + r.replies), b)
              == match Andthen(r, b)
                 case LoopCrashed => LoopCrashed
                 case Looped(s, replies) => Looped(s, [reply] + replies)
  {
    if r.Looped? && RunAll(r.server, b).Looped? {
      var more := RunAll(r.server, b).replies;
      assert [reply] + (r.replies + more) == [reply] + r.replies + more;
    }
  }

  lemma RunOne(s: Server, c: Input)
    requires Clean(s)
    ensures RunAll(s, [c]) == match Execute(s, c.cmd, c.clocks)
                              case Crashed => LoopCrashed
                              case Next(s', reply) => Looped(s', [reply])
  {
    var r := Execute(s, c.cmd, c.clocks);
    if r.Next? {
      assert RunAll(r.server, [c][1..]) == Looped(r.server, []);
    }
  }

  // ----- Queueing -----

  /** Inside a transaction a command joins the queue, or is refused and changes nothing. */
  lemma QueueOne(s: Server, cs: seq<Input>) returns (s': Server)
    requires Clean(s) && s.inTx && cs != [] && !IsTransactionCommand(cs[0].cmd)
    ensures s' == s.(queue := s.queue + if Queueable(cs[0].cmd) then [cs[0].cmd] else [])
    ensures Clean(s')
    ensures RunAll(s', cs[1..]).Looped? ==>
              RunAll(s, cs).Looped? && RunAll(s, cs).server == RunAll(s', cs[1..]).server
  {
    s' := Execute(s, cs[0].cmd, cs[0].clocks).server;
    assert s.queue + [] == s.queue;
  }

  function Filled(s: Server, cs: seq<Input>): Server
    decreases |cs|
  {
    if cs == [] then s
    else Filled(s.(queue := s.queue + if Queueable(cs[0].cmd) then [cs[0].cmd] else []), cs[1..])
  }

  lemma {:induction false} FilledQueue(s: Server, cs: seq<Input>)
    ensures Filled(s, cs) == s.(queue := s.queue + Queued(cs))
    decreases |cs|
  {
    if cs == [] {
      assert s.queue + [] == s.queue;
    } else {
      var first := if Queueable(cs[0].cmd) then [cs[0].cmd] else [];
      FilledQueue(s.(queue := s.queue + first), cs[1..]);
      ConcatAssociative(s.queue, first, Queued(cs[1..]));
    }
  }

  lemma {:induction false} RunFills(s: Server, cs: seq<Input>)
    requires Clean(s) && s.inTx && NoTransactionCommands(cs)
    ensures RunAll(s, cs).Looped? && RunAll(s, cs).server == Filled(s, cs)
    decreases |cs|
  {
    if cs != [] {
      assert cs[0] in cs;
      var s' := QueueOne(s, cs);
      RunFills(s', cs[1..]);
    }
  }

  /** Inside a transaction a list of commands only fills the queue. */
  lemma QueueingFillsQueue(s: Server, cs: seq<Input>)
    requires Clean(s) && s.inTx && NoTransactionCommands(cs)
    ensures RunAll(s, cs).Looped? && RunAll(s, cs).server == s.(queue := s.queue + Queued(cs))
  {
    RunFills(s, cs);
    FilledQueue(s, cs);
  }

  // ----- The loop of EXEC against the direct run -----

  /** A queueable command outside a transaction does not see the queue. */
  lemma QueueInvisible(s: Server, cmd: Command, clocks: seq<Clock>)
    requires Clean(s) && !s.inTx && Queueable(cmd)
    ensures var r, r' := Execute(s, cmd, clocks), Execute(s.(queue := []), cmd, clocks);
            && (r.Crashed? <==> r'.Crashed?)
            && (r.Next? ==> r' == Next(r.server.(queue := []), r.reply) && r.server.queue == s.queue && !r.server.inTx)
  {
  }

  lemma RefusedDoesNothing(s: Server, c: Input)
    requires Clean(s) && !Queueable(c.cmd) && !IsTransactionCommand(c.cmd)
    ensures Execute(s, c.cmd, c.clocks).Next? && Execute(s, c.cmd, c.clocks).server == s
  {
  }

  /** Some queued command answers nothing. */
  ghost predicate FallsSilent(replies: seq<Reply>) {
    Silent in replies
  }

  /** What EXEC's loop makes of the queued commands of `cs`, against the direct run `d`. */
  ghost predicate Matches(e: Loop, d: Loop, cs: seq<Input>)
    requires d.Looped? ==> |d.replies| == |cs|
  {
    && (e.LoopCrashed? <==> d.LoopCrashed? || FallsSilent(QueuedReplies(cs, d.replies)))
    && (e.Looped? ==> d.server == e.server.(queue := []) && e.replies == QueuedReplies(cs, d.replies))
  }

  /** A loop's result after a first reply. */
  ghost function Preceded(reply: Reply, r: Loop): (r': Loop)
    ensures r.Looped? ==> r'.Looped? && |r'.replies| == |r.replies| + 1
  {
    match r
    case LoopCrashed => LoopCrashed
    case Looped(s, replies) => Looped(s, [reply] + replies)
  }

  lemma MatchesCons(e: Loop, d: Loop, cs: seq<Input>, reply: Reply)
    requires cs != [] && (d.Looped? ==> |d.replies| == |cs| - 1) && Matches(e, d, cs[1..])
    ensures Queueable(cs[0].cmd) ==>
              Matches(if reply.Silent? then LoopCrashed else Preceded(reply, e), Preceded(reply, d), cs)
    ensures !Queueable(cs[0].cmd) ==> Matches(e, Preceded(reply, d), cs)
  {
    if d.Looped? {
      var rs := [reply] + d.replies;
      var rest := QueuedReplies(cs[1..], d.replies);
      assert rs[1..] == d.replies;
      assert QueuedReplies(cs, rs) == (if Queueable(cs[0].cmd) then [reply] else []) + rest;
      assert Queueable(cs[0].cmd) ==> FallsSilent(QueuedReplies(cs, rs)) == (reply.Silent? || FallsSilent(rest));
      assert [] + rest == rest;
    }
  }

  /** The first queueable command, in EXEC's loop and in the direct run. */
  lemma LoopFirst(s: Server, i: nat, cs: seq<Input>, clocks: seq<Clock>)
    requires Clean(s) && !s.inTx && cs != [] && Queueable(cs[0].cmd)
    requires i < |s.queue| && s.queue[i] == cs[0].cmd
    requires Direct(cs, clocks, i)[0] == Input(cs[0].cmd, [ClockAt(clocks, i)])
    requires Direct(cs, clocks, i)[1..] == Direct(cs[1..], clocks, i + 1)
    ensures var r := Execute(s, cs[0].cmd, [ClockAt(clocks, i)]);
            var e, d := ExecLoop(s, i, clocks), RunAll(s.(queue := []), Direct(cs, clocks, i));
            if r.Crashed? then e.LoopCrashed? && d.LoopCrashed?
            else
              && r.server.queue == s.queue && !r.server.inTx
              && e == (if r.reply.Silent? then LoopCrashed else Preceded(r.reply, ExecLoop(r.server, i + 1, clocks)))
              && d == Preceded(r.reply, RunAll(r.server.(queue := []), Direct(cs[1..], clocks, i + 1)))
  {
    QueueInvisible(s, cs[0].cmd, [ClockAt(clocks, i)]);
  }

  lemma {:induction false} LoopIsDirect(s: Server, i: nat, cs: seq<Input>, clocks: seq<Clock>)
    requires Clean(s) && !s.inTx && i <= |s.queue| && s.queue[i..] == Queued(cs)
    requires NoTransactionCommands(cs)
    ensures Matches(ExecLoop(s, i, clocks), RunAll(s.(queue := []), Direct(cs, clocks, i)), cs)
    decreases |cs|
  {
    if cs != [] {
      assert cs[0] in cs;
      if Queueable(cs[0].cmd) {
        LoopStep(s, i, cs, clocks);
        LoopFirst(s, i, cs, clocks);
        var r := Execute(s, cs[0].cmd, [ClockAt(clocks, i)]);
        if r.Next? {
          LoopIsDirect(r.server, i + 1, cs[1..], clocks);
          MatchesCons(ExecLoop(r.server, i + 1, clocks),
                      RunAll(r.server.(queue := []), Direct(cs[1..], clocks, i + 1)), cs, r.reply);
        }
      } else {
        RefusedDoesNothing(s.(queue := []), cs[0]);
        assert Direct(cs, clocks, i)[1..] == Direct(cs[1..], clocks, i);
        LoopIsDirect(s, i, cs[1..], clocks);
        MatchesCons(ExecLoop(s, i, clocks), RunAll(s.(queue := []), Direct(cs[1..], clocks, i)), cs,
                    Execute(s.(queue := []), cs[0].cmd, cs[0].clocks).reply);
      }
    }
  }

  lemma LoopStep(s: Server, i: nat, cs: seq<Input>, clocks: seq<Clock>)
    requires i <= |s.queue| && s.queue[i..] == Queued(cs) && cs != [] && Queueable(cs[0].cmd)
    ensures i < |s.queue| && s.queue[i] == cs[0].cmd && s.queue[i + 1..] == Queued(cs[1..])
    ensures Direct(cs, clocks, i)[0] == Input(cs[0].cmd, [ClockAt(clocks, i)])
    ensures Direct(cs, clocks, i)[1..] == Direct(cs[1..], clocks, i + 1)
  {
    assert s.queue[i..][0] == cs[0].cmd;
    assert s.queue[i..][1..] == s.queue[i + 1..];
  }

  // ----- The theorems -----

  predicate Is(cmd: Command, k: Kind) {
    Classify(cmd) == Accepted(k)
  }

  lemma TransactionOpens(s: Server, multi: Input, cs: seq<Input>)
    requires Between(s) && !s.inTx && Is(multi.cmd, KMulti) && NoTransactionCommands(cs)
    ensures RunAll(s, [multi] + cs).Looped?
    ensures RunAll(s, [multi] + cs).server == s.(inTx := true, queue := Queued(cs))
  {
    RunOne(s, multi);
    RunAppend(s, [multi], cs);
    QueueingFillsQueue(s.(inTx := true), cs);
    assert [] + Queued(cs) == Queued(cs);
  }

  /** For every list of non-transaction commands, MULTI, the list, then EXEC ends with the
      same store, the same propagated commands and the same client state as sending the
      list outside a transaction with the same clock readings, and EXEC answers from the
      replies the direct run gave; it crashes exactly when the direct run does or some
      queued command answers nothing. */
  lemma TransactionIsDirectRun(s: Server, multi: Input, cs: seq<Input>, exec: Input)
    requires Between(s) && !s.inTx && NoTransactionCommands(cs)
    requires Is(multi.cmd, KMulti) && Is(exec.cmd, KExec)
    ensures var t, d := RunAll(s, [multi] + cs + [exec]), RunAll(s, Direct(cs, exec.clocks, 0));
            && (t.LoopCrashed? <==> d.LoopCrashed? || FallsSilent(QueuedReplies(cs, d.replies)))
            && (t.Looped? ==> t.server == d.server
                              && t.replies[|t.replies| - 1] == ExecReply(QueuedReplies(cs, d.replies)))
  {
    var queueing := s.(inTx := true, queue := Queued(cs));
    TransactionOpens(s, multi, cs);
    RunAppend(s, [multi] + cs, [exec]);
    RunOne(queueing, exec);
    var looping := s.(queue := Queued(cs));
    assert looping.queue[0..] == Queued(cs);
    assert queueing.(inTx := false) == looping && looping.(queue := []) == s;
    LoopIsDirect(looping, 0, cs, exec.clocks);
  }

  /** With DISCARD instead, nothing has happened. */
  lemma DiscardUndoes(s: Server, multi: Input, cs: seq<Input>, discard: Input)
    requires Between(s) && !s.inTx && NoTransactionCommands(cs)
    requires Is(multi.cmd, KMulti) && Is(discard.cmd, KDiscard)
    ensures var t := RunAll(s, [multi] + cs + [discard]);
            t.Looped? && t.server == s && t.replies[|t.replies| - 1] == SimpleText("OK")
  {
    TransactionOpens(s, multi, cs);
    RunAppend(s, [multi] + cs, [discard]);
    RunOne(s.(inTx := true, queue := Queued(cs)), discard);
  }

  // ----- The EXEC reply -----

  function JoinReplies(replies: seq<Reply>): string
    requires forall r :: r in replies ==> r.Text?
  {
    if replies == [] then "" else replies[0].s + JoinReplies(replies[1..])
  }

  ghost predicate AllSurvive(replies: seq<Reply>) {
    forall r :: r in replies ==> r.Text? && R.SurvivesExec(r.s)
  }

  lemma {:induction false} ParsedPrintBack(replies: seq<Reply>)
    requires AllSurvive(replies)
    ensures ParsedReplies(replies).Some?
    ensures R.ElementsText(ParsedReplies(replies).value) == JoinReplies(replies)
  {
    if replies != [] {
      assert replies[0] in replies;
      ParsedPrintBack(replies[1..]);
    }
  }

  /** When every reply survives being parsed and printed, the EXEC reply is `*n` followed by
      the n replies byte for byte. */
  lemma ExecReplyIsConcatenation(replies: seq<Reply>)
    requires AllSurvive(replies)
    ensures ExecReply(replies) == Text(R.ArrayHeader(|replies|) + JoinReplies(replies))
  {
    ParsedPrintBack(replies);
    R.ArrayTextUncut(ParsedReplies(replies).value);
  }

  lemma TransactionReply(s: Server, multi: Input, cs: seq<Input>, exec: Input)
    requires Between(s) && !s.inTx && NoTransactionCommands(cs)
    requires Is(multi.cmd, KMulti) && Is(exec.cmd, KExec)
    requires var d := RunAll(s, Direct(cs, exec.clocks, 0)); d.Looped? && AllSurvive(QueuedReplies(cs, d.replies))
    ensures var t, d := RunAll(s, [multi] + cs + [exec]), RunAll(s, Direct(cs, exec.clocks, 0));
            var rs := QueuedReplies(cs, d.replies);
            t.Looped? && t.replies[|t.replies| - 1] == Text(R.ArrayHeader(|rs|) + JoinReplies(rs))
  {
    TransactionIsDirectRun(s, multi, cs, exec);
    assert !FallsSilent(QueuedReplies(cs, RunAll(s, Direct(cs, exec.clocks, 0)).replies));
    ExecReplyIsConcatenation(QueuedReplies(cs, RunAll(s, Direct(cs, exec.clocks, 0)).replies));
  }
}
