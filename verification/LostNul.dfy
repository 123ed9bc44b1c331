/** A run in which a replica does not get what the master stored: the client's bytes may carry
    a NUL, the bytes propagateCommand prints may not (app/resp.c:104-140, app/replicas.c:43-49). */
module LostNul {
  import opened Options
  import opened CText
  import R = Resp
  import B = RespBuffers
  import opened Store
  import opened Commands
  import T = Transactions
  import P = Replicas
  import SR = StoreRefinement
  import N = CommandNames

  lemma DrainOneArray(cmd: Command)
    requires R.IntRange(cmd)
    ensures B.Drain(R.Wire(cmd)) == B.Drained(B.Arrays([cmd]), "")
  {
    R.WireRoundTrip(cmd, "");
    assert R.Wire(cmd) + "" == R.Wire(cmd);
    B.DrainStep(R.Wire(cmd), "", R.Array(R.Bulks(cmd)));
    assert B.Drain("") == B.Drained([], "");
    assert B.Arrays([cmd]) == [R.Array(R.Bulks(cmd))];
  }

  lemma SetStep(s: Server, cmd: Command, clock: Clock)
    requires Clean(s) && !s.inTx && s.isMaster && |cmd| == 3 && cmd[0] == "SET"
    ensures Execute(s, cmd, [clock])
         == Next(s.(store := Set(s.store, CStr(cmd[1]), cmd[2]), log := s.log + [cmd]), SimpleText("OK"))
  {
    N.SetIsSet(cmd);
  }

  lemma SetReadsBack(key: string, data: string, now: int)
    ensures Get(Set(Fresh(), key, data), key, now) == Some(data)
  {
    SR.FreshRefines();
    SR.SetRefines(Fresh(), key, data);
    SR.ReadsRefine(Set(Fresh(), key, data), key, now);
  }

  /** One SET on a new master. */
  lemma SetRun(cmd: Command, clock: Clock, now: int)
    requires |cmd| == 3 && cmd[0] == "SET"
    ensures var r := RunAll(Start(true), [Input(cmd, [clock])]);
            r.Looped? && r.server.log == [cmd] && Get(r.server.store, CStr(cmd[1]), now) == Some(cmd[2])
  {
    T.RunOne(Start(true), Input(cmd, [clock]));
    SetStep(Start(true), cmd, clock);
    SetReadsBack(CStr(cmd[1]), cmd[2], now);
    assert [] + [cmd] == [cmd];
  }

  /** A value with a NUL byte reaches a new master in any chunks, is stored whole and its
      command propagated, but the bytes a listed replica is sent do not decode to that
      command, in whatever chunks they arrive. */
  lemma NulDoesNotReachReplica(key: string, data: string, clock: Clock, now: int, received: seq<string>,
                               rs: seq<P.Replica>, fd: int, fails: seq<bool>, sent: seq<string>)
    requires !NulFree(data) && |key| <= I32_MAX && |data| <= I32_MAX
    requires B.Concat(received) == R.Wire(["SET", key, data])
    requires P.DistinctFds(rs) && fd in P.Fds(rs)
    requires P.Served(rs, fd, [P.Propagation(["SET", key, data], fails)])
    requires B.Concat(sent) == P.Sent(rs, fd, [P.Propagation(["SET", key, data], fails)])
    ensures B.Feed("", received) == B.Drained(B.Arrays([["SET", key, data]]), "")
    ensures var r := RunAll(Start(true), [Input(["SET", key, data], [clock])]);
            && r.Looped? && r.server.log == [["SET", key, data]]
            && Get(r.server.store, CStr(key), now) == Some(data)
            && B.Feed("", sent) != B.Drained(B.Arrays(r.server.log), "")
  {
    var cmd: Command := ["SET", key, data];
    B.ChunkingDoesNotMatter(received, received);
    DrainOneArray(cmd);
    SetRun(cmd, clock, now);
    var event := P.Propagation(cmd, fails);
    P.PresentIsSentEverything(rs, fd, [event]);
    assert P.Commands([event]) == [cmd];
    assert cmd in [cmd] && cmd[2] == data;
    assert !R.Transmissible(cmd);
    B.PrintedDecodesIff([cmd], sent);
  }
}
