/** The load of the hash table when streams are added too: storeStreamAdd adds keys without
    ever resizing (app/redis_store.c:75-79, app/redis_store.c:216-239). */
module StoreLoad {
  import opened CText
  import opened Store
  import opened StoreRefinement
  import S = Streams

  // ----- A bound for every run -----

  /** The stream keys not yet paid for: each new one owes one, each storeSet pays eleven,
      since a doubling of at least 16 buckets makes room for twelve keys. */
  ghost function Owes(s: StoreState, op: Op, owed: nat): nat
    requires |s.table| > 0
  {
    match op
    case OpSet(_, _) => if owed <= 11 then 0 else owed - 11
    case OpStreamAdd(k, _) => if Lookup(s.table, k).None? then owed + 1 else owed
    case _ => owed
  }

  ghost predicate LoadedBut(s: StoreState, owed: nat) {
    && (exists k: nat :: |s.table| == 16 * Pow2(k))
    && 4 * s.used <= 3 * |s.table| + 4 + 4 * owed
  }

  lemma GrownRoom(s: StoreState, owed: nat)
    requires WellFormed(s) && LoadedBut(s, owed) && s.used < 0x100_0000
    ensures (exists k: nat :: |Grown(s).table| == 16 * Pow2(k)) && Grown(s).used == s.used
    ensures 4 * s.used <= 3 * |Grown(s).table| + 4 * if owed <= 11 then 0 else owed - 11
  {
    Float32Exact(s.used);
    var k: nat :| |s.table| == 16 * Pow2(k);
    assert 2 * Pow2(k) == Pow2(k + 1);
    if OverThreshold(s.used, |s.table|) {
      ResizeRefines(s);
      assert |Grown(s).table| == 16 * Pow2(k + 1);
    }
  }

  lemma SetLoadBut(s: StoreState, k: string, data: string, owed: nat)
    requires WellFormed(s) && LoadedBut(s, owed) && s.used < 0x100_0000
    ensures LoadedBut(Set(s, k, data), if owed <= 11 then 0 else owed - 11)
  {
    GrownRoom(s, owed);
    var g := Grown(s);
    assert |Put(g, k, data).table| == |g.table| && Put(g, k, data).used <= g.used + 1;
  }

  lemma StreamAddLoad(s: StoreState, k: string, call: S.Call, owed: nat)
    requires |s.table| > 0 && LoadedBut(s, owed) && call.now < U64 && StreamAddDefined(s, k)
    ensures LoadedBut(StreamAdd(s, k, call), if Lookup(s.table, k).None? then owed + 1 else owed)
  {
    assert |StreamAdd(s, k, call).table| == |s.table|;
  }

  lemma LoadStepBut(s: StoreState, op: Op, owed: nat)
    requires WellFormed(s) && LoadedBut(s, owed) && Defined(s, op) && s.used < 0x100_0000
    ensures LoadedBut(Apply(s, op), Owes(s, op, owed))
  {
    match op
    case OpSet(k, v) => SetLoadBut(s, k, v, owed);
    case OpExpire(k, e) => assert |SetExpiry(s, k, e).table| == |s.table| && SetExpiry(s, k, e).used == s.used;
    case OpSweep(now) => SweepTotal(s.table, now);
    case OpStreamAdd(k, call) => StreamAddLoad(s, k, call, owed);
  }

  /** What is owed after a run. */
  ghost function Debt(s: StoreState, ops: seq<Op>, owed: nat): nat
    decreases |ops|
  {
    if ops == [] || !Defined(s, ops[0]) then owed
    else Debt(Apply(s, ops[0]), ops[1..], Owes(s, ops[0], owed))
  }

  /** `used` stays below 2^24. */
  ghost predicate FewKeys(s: StoreState, ops: seq<Op>)
    decreases |ops|
  {
    ops != [] ==> s.used < 0x100_0000 && (Defined(s, ops[0]) ==> FewKeys(Apply(s, ops[0]), ops[1..]))
  }

  lemma {:induction false} LoadFrom(s: StoreState, ops: seq<Op>, last: StoreState, owed: nat)
    requires WellFormed(s) && LoadedBut(s, owed) && Runs(s, ops, last) && FewKeys(s, ops)
    ensures LoadedBut(last, Debt(s, ops, owed))
    decreases |ops|
  {
    if ops != [] {
      ApplyRefines(s, ops[0]);
      LoadStepBut(s, ops[0], owed);
      LoadFrom(Apply(s, ops[0]), ops[1..], last, Owes(s, ops[0], owed));
    }
  }

  /** In every run of store operations from a fresh store, streams included, with `used`
      below 2^24, the size is 16 times a power of two and 4*used is at most 3*size + 4 plus
      4 for each stream key still owed. */
  lemma LoadWithStreams(ops: seq<Op>, last: StoreState)
    requires Runs(Fresh(), ops, last) && FewKeys(Fresh(), ops)
    ensures LoadedBut(last, Debt(Fresh(), ops, 0))
  {
    FreshRefines();
    assert |Fresh().table| == 16 * Pow2(0);
    LoadFrom(Fresh(), ops, last, 0);
  }

  // ----- Where the bound without streams fails -----

  ghost predicate Distinct(keys: seq<string>) {
    forall i, j :: 0 <= i < j < |keys| ==> keys[i] != keys[j]
  }

  function Adds(keys: seq<string>, call: S.Call): seq<Op> {
    if keys == [] then [] else [OpStreamAdd(keys[0], call)] + Adds(keys[1..], call)
  }

  /** Adding to a new key keeps the size and counts the key. */
  lemma NewStream(s: StoreState, k: string, call: S.Call)
    requires WellFormed(s) && call.now < U64 && k !in Abs(s.table)
    ensures StreamAddDefined(s, k) && WellFormed(StreamAdd(s, k, call))
    ensures |StreamAdd(s, k, call).table| == |s.table| && StreamAdd(s, k, call).used == s.used + 1
    ensures forall k2 :: k2 in Abs(StreamAdd(s, k, call).table) <==> k2 == k || k2 in Abs(s.table)
  {
    AbsLookup(s.table, k);
    StreamAddRefines(s, k, call);
  }

  lemma {:induction false} AddsRun(s: StoreState, keys: seq<string>, call: S.Call) returns (last: StoreState)
    requires WellFormed(s) && call.now < U64 && Distinct(keys)
    requires forall k :: k in keys ==> k !in Abs(s.table)
    ensures Runs(s, Adds(keys, call), last) && WellFormed(last)
    ensures |last.table| == |s.table| && last.used == s.used + |keys|
    decreases |keys|
  {
    last := s;
    if keys != [] {
      NewStream(s, keys[0], call);
      assert Defined(s, OpStreamAdd(keys[0], call));
      var s' := StreamAdd(s, keys[0], call);
      forall k | k in keys[1..] ensures k !in Abs(s'.table) {
        var i :| 0 <= i < |keys[1..]| && keys[1..][i] == k;
        assert keys[i + 1] == k && k in keys;
      }
      last := AddsRun(s', keys[1..], call);
      assert Adds(keys, call)[1..] == Adds(keys[1..], call);
    }
  }

  /** XADD on n distinct keys of a new server and then any SET: after the one doubling the
      threshold is still exceeded as soon as n is above 24, whatever the IDs were. */
  lemma OneDoublingIsNotEnough(keys: seq<string>, call: S.Call, key: string, data: string)
    returns (added: StoreState)
    requires call.now < U64 && Distinct(keys) && 24 < |keys| < 0x100_0000
    ensures Runs(Fresh(), Adds(keys, call), added) && |added.table| == 16 && !Loaded(added)
    ensures var last := Set(added, key, data); |last.table| == 32 && 4 * last.used > 3 * |last.table|
  {
    FreshRefines();
    added := AddsRun(Fresh(), keys, call);
    Float32Exact(added.used);
    ResizeRefines(added);
    assert |Grown(added).table| == 32 && Grown(added).used == |keys|;
  }

  /** There are such keys. */
  lemma ManyKeys(n: nat) returns (keys: seq<string>)
    ensures |keys| == n && Distinct(keys)
  {
    keys := seq(n, i requires 0 <= i < n => Dec(i));
    forall i, j | 0 <= i < j < n ensures keys[i] != keys[j] {
      ValueOfDec(i);
      ValueOfDec(j);
    }
  }
}
