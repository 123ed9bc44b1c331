/** A client can see that overwriting a key keeps its expiry (app/command.c:19-46,
    app/redis_store.c:82-98). */
module KeptExpiry {
  import opened Options
  import opened CText
  import R = Resp
  import SR = StoreRefinement
  import opened Commands
  import L = CommandLaws
  import N = CommandNames
  import opened MapServer

  function SetPx(key: string, data: string, px: nat): Command {
    ["SET", key, data, "PX", Dec(px)]
  }

  lemma PxIs(key: string, data: string, px: nat)
    requires 0 < px <= I64_MAX
    ensures PxOption(SetPx(key, data, px)) == px
  {
    assert CStr("PX") == "PX";
    assert SameName("PX", "PX");
    DecSignedRoundTrip(px);
    PxText(px);
  }

  lemma PxText(n: nat)
    ensures DecSigned(n) == Dec(n) && CStr(Dec(n)) == Dec(n)
  {
    R.DecSignedNulFree(n);
  }

  lemma SetStep(s: MServer, cmd: Command, clock: Clock) returns (s': MServer)
    requires !s.inTx && (|cmd| == 3 || |cmd| == 5) && cmd[0] == "SET"
    ensures MExecute(s, cmd, [clock]) == MNext(s', SimpleText("OK")) && !s'.inTx
    ensures s'.cells == L.MSetStore(s.cells, CStr(cmd[1]), cmd[2], PxOption(cmd), clock)
  {
    N.SetIsSet(cmd);
    s' := MExecute(s, cmd, [clock]).server;
  }

  lemma GetStep(s: MServer, cmd: Command, clock: Clock)
    requires !s.inTx && |cmd| == 2 && cmd[0] == "GET"
    ensures MExecute(s, cmd, [clock]) == MNext(s, MReply(s.cells, KGet, cmd, clock))
  {
    N.GetIsGet(cmd);
  }

  lemma FirstStep(s: MServer, inputs: seq<Input>, s': MServer, r: Reply, last: MServer, more: seq<Reply>)
    requires inputs != [] && MExecute(s, inputs[0].cmd, inputs[0].clocks) == MNext(s', r)
    requires MRunAll(s', inputs[1..]) == MLooped(last, more)
    ensures MRunAll(s, inputs) == MLooped(last, [r] + more)
  {
  }

  lemma ThreeSteps(s: MServer, a: Input, b: Input, c: Input, s1: MServer, s2: MServer, s3: MServer,
                   r1: Reply, r2: Reply, r3: Reply)
    requires MExecute(s, a.cmd, a.clocks) == MNext(s1, r1) && MExecute(s1, b.cmd, b.clocks) == MNext(s2, r2)
    requires MExecute(s2, c.cmd, c.clocks) == MNext(s3, r3)
    ensures MRunAll(s, [a, b, c]) == MLooped(s3, [r1, r2, r3])
  {
    assert [a, b, c][1..] == [b, c] && [b, c][1..] == [c] && [c][1..] == [];
    FirstStep(s2, [c], s3, r3, s3, []);
    FirstStep(s1, [b, c], s2, r2, s3, [r3]);
    FirstStep(s, [a, b, c], s1, r1, s3, [r2, r3]);
    assert [r2] + [r3] == [r2, r3] && [r1] + [r2, r3] == [r1, r2, r3];
  }

  /** The last read of the map after both writes. */
  lemma ReadAfterBoth(key: string, first: string, second: string, px: nat, t1: Clock, t2: Clock, t3: Clock)
    requires 0 < px
    ensures var m := L.MSetStore(L.MSetStore(map[], key, first, px, t1), key, second, 0, t2);
            SR.MGet(m, key, t3.ms) == if t1.ms + px <= t3.ms then None else Some(second)
  {
  }

  /** SET with PX, a plain SET of the same key, then GET, each at some clock reading. */
  function Inputs(key: string, first: string, second: string, px: nat, t1: Clock, t2: Clock, t3: Clock): seq<Input> {
    [Input(SetPx(key, first, px), [t1]), Input(["SET", key, second], [t2]), Input(["GET", key], [t3])]
  }

  lemma MapRun(key: string, first: string, second: string, px: nat, t1: Clock, t2: Clock, t3: Clock, isMaster: bool)
    returns (last: MServer)
    requires 0 < px <= I64_MAX
    ensures MRunAll(MStart(isMaster), Inputs(key, first, second, px, t1, t2, t3))
         == MLooped(last, [SimpleText("OK"), SimpleText("OK"),
                           if t1.ms + px <= t3.ms then Text(R.NULL_BULK) else BulkReply(second)])
  {
    var s0 := MStart(isMaster);
    var s1 := SetStep(s0, SetPx(key, first, px), t1);
    last := SetStep(s1, ["SET", key, second], t2);
    GetStep(last, ["GET", key], t3);
    PxIs(key, first, px);
    ReadAfterBoth(CStr(key), first, second, px, t1, t2, t3);
    ThreeSteps(s0, Input(SetPx(key, first, px), [t1]), Input(["SET", key, second], [t2]), Input(["GET", key], [t3]),
               s1, last, last, SimpleText("OK"), SimpleText("OK"), MReply(last.cells, KGet, ["GET", key], t3));
  }

  /** From an empty store, SET with PX, a plain SET of the same key whenever, then GET: the
      GET answers a null bulk string if and only if the first SET's expiry has passed. */
  lemma OverwriteKeepsExpiry(key: string, first: string, second: string, px: nat,
                             t1: Clock, t2: Clock, t3: Clock, isMaster: bool)
    requires 0 < px <= I64_MAX
    ensures var r := RunAll(Start(isMaster), Inputs(key, first, second, px, t1, t2, t3));
            r.Looped? && r.replies == [SimpleText("OK"), SimpleText("OK"),
                                       if t1.ms + px <= t3.ms then Text(R.NULL_BULK) else BulkReply(second)]
  {
    var last := MapRun(key, first, second, px, t1, t2, t3, isMaster);
    ReachableStoreIsMap(Inputs(key, first, second, px, t1, t2, t3), isMaster, key, 0);
  }
}
