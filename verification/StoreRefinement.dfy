/** In every reachable state the hash table refines a map from key to (value, expiry). */
module StoreRefinement {
  import opened Options
  import opened CText
  import opened Store
  import S = Streams

  ghost predicate Good(t: seq<Chain>) {
    |t| > 0 && Placed(t) && UniqueKeys(Bag(t))
  }

  // ----- How one change of the bag shows in the map -----

  lemma SameCell(t: seq<Chain>, t': seq<Chain>, k: string)
    requires Good(t) && Good(t')
    requires forall y: Item :: y.key == k ==> (y in Bag(t') <==> y in Bag(t))
    ensures k in Abs(t') <==> k in Abs(t)
    ensures k in Abs(t) ==> Abs(t')[k] == Abs(t)[k]
  {
    if k in Abs(t) {
      AbsHolds(t, k, Abs(t)[k]);
      AbsHolds(t', k, Abs(t)[k]);
    } else {
      AbsLookup(t, k);
      AbsLookup(t', k);
      LookupKey(t', k);
      if Lookup(t', k).Some? {
        LookupFinds(t, Lookup(t', k).value);
      }
    }
  }

  lemma AbsUpdate(t: seq<Chain>, t': seq<Chain>, k: string, c: Cell)
    requires Good(t) && Good(t')
    requires Item(k, c.value, c.expiry) in Bag(t')
    requires forall y: Item :: y.key != k ==> (y in Bag(t') <==> y in Bag(t))
    ensures Abs(t') == Abs(t)[k := c]
  {
    var m := Abs(t)[k := c];
    forall k2: string ensures k2 in Abs(t') <==> k2 in m ensures k2 in m ==> Abs(t')[k2] == m[k2] {
      if k2 == k {
        AbsHolds(t', k, c);
      } else {
        SameCell(t, t', k2);
      }
    }
    assert Abs(t').Keys == m.Keys;
  }

  lemma SameBagSameMap(t: seq<Chain>, t': seq<Chain>)
    requires Good(t) && Good(t') && Bag(t) == Bag(t')
    ensures Abs(t') == Abs(t)
  {
    forall k: string ensures k in Abs(t') <==> k in Abs(t) ensures k in Abs(t) ==> Abs(t')[k] == Abs(t)[k] {
      SameCell(t, t', k);
    }
    assert Abs(t').Keys == Abs(t).Keys;
  }

  lemma ReplaceUnique(m: multiset<Item>, a: Item, x: Item)
    requires UniqueKeys(m) && a in m && x.key == a.key
    ensures UniqueKeys(m - multiset{a} + multiset{x})
    ensures forall y: Item :: y.key != x.key ==> (y in m - multiset{a} + multiset{x} <==> y in m)
  {
  }

  lemma AddUnique(m: multiset<Item>, x: Item)
    requires UniqueKeys(m) && forall y :: y in m ==> y.key != x.key
    ensures UniqueKeys(m + multiset{x})
  {
  }

  lemma ReplacePlaced(t: seq<Chain>, b: nat, i: nat, x: Item)
    requires b < |t| && i < |t[b]| && Placed(t) && x.key == t[b][i].key
    ensures Placed(Replace(t, b, i, x))
  {
  }

  /** Overwriting an entry in place changes its cell and nothing else. */
  lemma ReplaceRefines(s: StoreState, b: nat, i: nat, x: Item)
    requires WellFormed(s) && b < |s.table| && i < |s.table[b]| && x.key == s.table[b][i].key
    ensures WellFormed(s.(table := Replace(s.table, b, i, x)))
    ensures Abs(Replace(s.table, b, i, x)) == Abs(s.table)[x.key := Cell(x.value, x.expiry)]
  {
    var t, t' := s.table, Replace(s.table, b, i, x);
    ReplaceBag(t, b, i, x);
    ReplacePlaced(t, b, i, x);
    ReplaceUnique(Bag(t), t[b][i], x);
    AbsUpdate(t, t', x.key, Cell(x.value, x.expiry));
    BagTotal(t);
    BagTotal(t');
  }

  lemma AbsentKey(t: seq<Chain>, k: string)
    requires Good(t) && Lookup(t, k).None?
    ensures forall y :: y in Bag(t) ==> y.key != k
    ensures k !in Abs(t)
  {
    AbsLookup(t, k);
    forall y | y in Bag(t) ensures y.key != k {
      LookupFinds(t, y);
    }
  }

  /** Prepending a new key adds one cell and counts it. */
  lemma PrependRefines(s: StoreState, x: Item)
    requires WellFormed(s) && Lookup(s.table, x.key).None?
    ensures WellFormed(StoreState(Prepend(s.table, x), s.used + 1))
    ensures Abs(Prepend(s.table, x)) == Abs(s.table)[x.key := Cell(x.value, x.expiry)]
  {
    var t, t' := s.table, Prepend(s.table, x);
    AbsentKey(t, x.key);
    PrependBag(t, x);
    PrependPlaced(t, x);
    AddUnique(Bag(t), x);
    AbsUpdate(t, t', x.key, Cell(x.value, x.expiry));
    BagTotal(t);
    BagTotal(t');
  }

  // ----- resize -----

  /** Rehashing moves every entry to its new bucket and leaves the map unchanged. */
  lemma ResizeRefines(s: StoreState)
    requires WellFormed(s)
    ensures WellFormed(Resize(s)) && Abs(Resize(s).table) == Abs(s.table)
    ensures Bag(Resize(s).table) == Bag(s.table) && |Resize(s).table| == 2 * |s.table|
  {
    var empty := EmptyTable(2 * |s.table|);
    BagEmpty(empty);
    RehashBag(s.table, 0, empty);
    RehashPlaced(s.table, 0, empty);
    assert s.table[0..] == s.table;
    SameBagSameMap(s.table, Resize(s).table);
    BagTotal(s.table);
    BagTotal(Resize(s).table);
  }

  lemma FreshRefines()
    ensures WellFormed(Fresh()) && Abs(Fresh().table) == map[]
  {
    BagEmpty(Fresh().table);
    BagTotal(Fresh().table);
    AbsOfBag(Fresh().table, map[]);
  }

  // ----- The map operations -----

  /** storeSet on the map: a new key never expires, an overwritten key keeps its expiry. */
  function MSet(m: Model, k: string, data: string): Model {
    m[k := Cell(Str(data), if k in m then m[k].expiry else 0)]
  }

  function MExpire(m: Model, k: string, expiry: int): Model {
    if k in m then m[k := m[k].(expiry := expiry)] else m
  }

  function MSweep(m: Model, now: int): Model {
    map k | k in m && !(m[k].expiry != 0 && m[k].expiry < now) :: m[k]
  }

  function MStreamAdd(m: Model, k: string, call: S.Call): Model
    requires call.now < U64 && (k in m ==> m[k].value.StreamVal?)
  {
    if k in m then m[k := m[k].(value := StreamVal(S.Add(m[k].value.entries, call)))]
    else m[k := Cell(StreamVal(S.Add([], call)), 0)]
  }

  function MGet(m: Model, k: string, now: int): Option<string> {
    if k in m && m[k].value.Str? && !(m[k].expiry != 0 && m[k].expiry <= now) then Some(m[k].value.data) else None
  }

  function MType(m: Model, k: string, now: int): ValueType {
    if k !in m || (m[k].expiry != 0 && m[k].expiry < now) then TypeNone
    else if m[k].value.Str? then TypeString else TypeStream
  }

  function MStream(m: Model, k: string): Option<seq<S.Entry>> {
    if k in m && m[k].value.StreamVal? then Some(m[k].value.entries) else None
  }

  // ----- Each operation acts as its map counterpart -----

  lemma PutRefines(s: StoreState, k: string, data: string)
    requires WellFormed(s)
    ensures WellFormed(Put(s, k, data)) && Abs(Put(s, k, data).table) == MSet(Abs(s.table), k, data)
  {
    var b := Bucket(k, |s.table|);
    var i := Index(s.table[b], k);
    AbsLookup(s.table, k);
    if i < |s.table[b]| {
      ReplaceRefines(s, b, i, Item(k, Str(data), s.table[b][i].expiry));
    } else {
      PrependRefines(s, Item(k, Str(data), 0));
    }
  }

  lemma SetRefines(s: StoreState, k: string, data: string)
    requires WellFormed(s)
    ensures WellFormed(Set(s, k, data)) && Abs(Set(s, k, data).table) == MSet(Abs(s.table), k, data)
  {
    ResizeRefines(s);
    PutRefines(Grown(s), k, data);
  }

  lemma SetExpiryRefines(s: StoreState, k: string, e: int)
    requires WellFormed(s)
    ensures WellFormed(SetExpiry(s, k, e)) && Abs(SetExpiry(s, k, e).table) == MExpire(Abs(s.table), k, e)
  {
    var b := Bucket(k, |s.table|);
    var i := Index(s.table[b], k);
    AbsLookup(s.table, k);
    if i < |s.table[b]| {
      ReplaceRefines(s, b, i, s.table[b][i].(expiry := e));
    }
  }

  /** Setting a key and then its expiry: different expiries give different stores. */
  lemma SetWithExpiry(s: StoreState, k: string, data: string, e1: int, e2: int)
    requires WellFormed(s)
    ensures SetExpiry(Set(s, k, data), k, e1) == SetExpiry(Set(s, k, data), k, e2) <==> e1 == e2
  {
    var s' := Set(s, k, data);
    SetRefines(s, k, data);
    SetExpiryRefines(s', k, e1);
    SetExpiryRefines(s', k, e2);
    assert MExpire(Abs(s'.table), k, e1)[k].expiry == e1;
    assert MExpire(Abs(s'.table), k, e2)[k].expiry == e2;
  }

  lemma StreamAddRefines(s: StoreState, k: string, call: S.Call)
    requires WellFormed(s) && call.now < U64 && StreamAddDefined(s, k)
    ensures k in Abs(s.table) ==> Abs(s.table)[k].value.StreamVal?
    ensures WellFormed(StreamAdd(s, k, call))
    ensures Abs(StreamAdd(s, k, call).table) == MStreamAdd(Abs(s.table), k, call)
  {
    var b := Bucket(k, |s.table|);
    var i := Index(s.table[b], k);
    AbsLookup(s.table, k);
    if i < |s.table[b]| {
      var x := s.table[b][i];
      ReplaceRefines(s, b, i, x.(value := StreamVal(S.Add(x.value.entries, call))));
    } else {
      PrependRefines(s, Item(k, StreamVal(S.Add([], call)), 0));
    }
  }

  /** Reads see exactly the map. */
  lemma ReadsRefine(s: StoreState, k: string, now: int)
    requires WellFormed(s)
    ensures Get(s, k, now) == MGet(Abs(s.table), k, now)
    ensures TypeOf(s, k, now) == MType(Abs(s.table), k, now)
    ensures GetStream(s, k) == MStream(Abs(s.table), k)
    ensures StreamAddDefined(s, k) <==> (k in Abs(s.table) ==> Abs(s.table)[k].value.StreamVal?)
  {
    AbsLookup(s.table, k);
  }

  // ----- clearExpired -----

  lemma {:induction false} SweepChainCount(c: Chain, now: int, x: Item)
    ensures multiset(SweepChain(c, now))[x] == if Expired(x, now) then 0 else multiset(c)[x]
  {
    if c != [] {
      SweepChainCount(c[1..], now, x);
      assert c == [c[0]] + c[1..];
    }
  }

  lemma {:induction false} SweepBag(t: seq<Chain>, now: int, x: Item)
    ensures Bag(SweepTable(t, now))[x] == if Expired(x, now) then 0 else Bag(t)[x]
  {
    if t != [] {
      SweepChainCount(t[0], now, x);
      assert SweepTable(t, now)[1..] == SweepTable(t[1..], now);
      SweepBag(t[1..], now, x);
    }
  }

  lemma {:induction false} SweepChainFrom(c: Chain, now: int)
    ensures forall x :: x in SweepChain(c, now) <==> x in c && !Expired(x, now)
  {
    if c != [] {
      SweepChainFrom(c[1..], now);
    }
  }

  lemma SweepPlaced(t: seq<Chain>, now: int)
    requires Placed(t)
    ensures Placed(SweepTable(t, now))
  {
    var t': seq<Chain> := SweepTable(t, now);
    forall b: nat, i: nat | b < |t'| && i < |t'[b]| ensures Bucket(t'[b][i].key, |t'|) == b {
      SweepChainFrom(t[b], now);
      assert t'[b][i] in SweepChain(t[b], now);
    }
  }

  lemma SweepGood(t: seq<Chain>, now: int)
    requires Good(t)
    ensures Good(SweepTable(t, now))
    ensures forall x :: x in Bag(SweepTable(t, now)) <==> x in Bag(t) && !Expired(x, now)
  {
    SweepPlaced(t, now);
    forall x: Item
      ensures Bag(SweepTable(t, now))[x] == if Expired(x, now) then 0 else Bag(t)[x]
    {
      SweepBag(t, now, x);
    }
  }

  lemma SweptCell(t: seq<Chain>, now: int, k: string)
    requires Good(t)
    ensures k in Abs(SweepTable(t, now)) <==> k in MSweep(Abs(t), now)
    ensures k in MSweep(Abs(t), now) ==> Abs(SweepTable(t, now))[k] == MSweep(Abs(t), now)[k]
  {
    var t': seq<Chain> := SweepTable(t, now);
    SweepGood(t, now);
    if k in Abs(t) {
      AbsHolds(t, k, Abs(t)[k]);
      AbsHolds(t', k, Abs(t)[k]);
    }
    AbsLookup(t', k);
    LookupKey(t', k);
    if Lookup(t', k).Some? {
      LookupFinds(t, Lookup(t', k).value);
      AbsLookup(t, k);
    }
  }

  lemma SweepMap(t: seq<Chain>, now: int)
    requires Good(t)
    ensures Abs(SweepTable(t, now)) == MSweep(Abs(t), now)
  {
    var m', m := Abs(SweepTable(t, now)), MSweep(Abs(t), now);
    forall k: string ensures k in m' <==> k in m ensures k in m ==> m'[k] == m[k] {
      SweptCell(t, now, k);
    }
    assert m'.Keys == m.Keys;
  }

  predicate Increasing(at: seq<nat>) {
    forall k, l :: 0 <= k < l < |at| ==> at[k] < at[l]
  }

  /** `r` is what `at` picks from `c`, in order, and `at` leaves out exactly the expired. */
  ghost predicate Picks(c: Chain, r: Chain, at: seq<nat>, now: int) {
    && |at| == |r| && Increasing(at)
    && (forall k :: 0 <= k < |at| ==> at[k] < |c| && r[k] == c[at[k]])
    && (forall i :: 0 <= i < |c| ==> (i in at <==> !Expired(c[i], now)))
  }

  function Shifted(at: seq<nat>): (r: seq<nat>)
    ensures |r| == |at| && forall k :: 0 <= k < |r| ==> r[k] == at[k] + 1
  {
    seq(|at|, k requires 0 <= k < |at| => at[k] + 1)
  }

  lemma ShiftedIn(at: seq<nat>, i: nat)
    ensures i + 1 in Shifted(at) <==> i in at
    ensures 0 !in Shifted(at)
  {
    if i in at {
      var k :| 0 <= k < |at| && at[k] == i;
      assert Shifted(at)[k] == i + 1;
    }
  }

  lemma ShiftedIncreasing(at: seq<nat>)
    requires Increasing(at)
    ensures Increasing(Shifted(at)) && Increasing([0] + Shifted(at))
  {
  }

  /** Which positions are picked, one further on. */
  lemma PickedShift(c: Chain, at: seq<nat>, now: int, i: nat)
    requires 0 < i < |c| && forall j :: 0 <= j < |c[1..]| ==> (j in at <==> !Expired(c[1..][j], now))
    ensures i in Shifted(at) <==> !Expired(c[i], now)
    ensures i in [0] + Shifted(at) <==> !Expired(c[i], now)
  {
    assert c[i] == c[1..][i - 1];
    ShiftedIn(at, i - 1);
  }

  lemma PicksSkip(c: Chain, r: Chain, at: seq<nat>, now: int)
    requires c != [] && Picks(c[1..], r, at, now) && Expired(c[0], now)
    ensures Picks(c, r, Shifted(at), now)
  {
    ShiftedIncreasing(at);
    forall i | 0 <= i < |c| ensures i in Shifted(at) <==> !Expired(c[i], now) {
      if i == 0 {
        ShiftedIn(at, 0);
      } else {
        PickedShift(c, at, now, i);
      }
    }
  }

  lemma PicksTake(c: Chain, r: Chain, at: seq<nat>, now: int)
    requires c != [] && Picks(c[1..], r, at, now) && !Expired(c[0], now)
    ensures Picks(c, [c[0]] + r, [0] + Shifted(at), now)
  {
    var at' := [0] + Shifted(at);
    ShiftedIncreasing(at);
    forall i | 0 <= i < |c| ensures i in at' <==> !Expired(c[i], now) {
      if i == 0 {
        assert at'[0] == 0;
      } else {
        PickedShift(c, at, now, i);
      }
    }
    forall k | 0 <= k < |at'| ensures at'[k] < |c| && ([c[0]] + r)[k] == c[at'[k]] {
      if k > 0 {
        assert at'[k] == at[k - 1] + 1 && c[1..][at[k - 1]] == c[at'[k]];
      }
    }
  }

  lemma {:induction false} SweepChainPicks(c: Chain, now: int) returns (at: seq<nat>)
    ensures Picks(c, SweepChain(c, now), at, now)
  {
    at := [];
    if c != [] {
      at := SweepChainPicks(c[1..], now);
      if Expired(c[0], now) {
        PicksSkip(c, SweepChain(c[1..], now), at, now);
        at := Shifted(at);
      } else {
        PicksTake(c, SweepChain(c[1..], now), at, now);
        at := [0] + Shifted(at);
      }
    }
  }

  ghost predicate Kept(c: Chain, r: Chain, now: int) {
    exists at :: Picks(c, r, at, now)
  }

  /** In every bucket the entries that have not expired stay, in order. */
  ghost predicate InOrder(t: seq<Chain>, t': seq<Chain>, now: int) {
    |t'| == |t| && forall b :: 0 <= b < |t| ==> Kept(t[b], t'[b], now)
  }

  lemma SweepInOrder(t: seq<Chain>, now: int)
    ensures InOrder(t, SweepTable(t, now), now)
  {
    var t': seq<Chain> := SweepTable(t, now);
    forall b | 0 <= b < |t| ensures Kept(t[b], t'[b], now) {
      var at := SweepChainPicks(t[b], now);
    }
  }

  /** clearExpired removes exactly the entries with a nonzero expiry below now, keeps the
      rest in order, and lowers `used` by the number removed. */
  lemma SweepRefines(s: StoreState, now: int)
    requires WellFormed(s)
    ensures InOrder(s.table, Sweep(s, now).table, now)
    ensures WellFormed(Sweep(s, now)) && Abs(Sweep(s, now).table) == MSweep(Abs(s.table), now)
    ensures s.used - Sweep(s, now).used == |Abs(s.table)| - |MSweep(Abs(s.table), now)|
  {
    SweepInOrder(s.table, now);
    assert Good(Sweep(s, now).table) by { SweepGood(s.table, now); }
    SweepMap(s.table, now);
    UsedIsMapSize(s);
    UsedIsMapSize(Sweep(s, now));
  }

  /** Sweeping is invisible: no read at a clock not below the sweep's changes its result. */
  lemma SweepInvisible(s: StoreState, now: int, k: string, later: int)
    requires WellFormed(s) && now <= later
    ensures WellFormed(Sweep(s, now))
    ensures Get(Sweep(s, now), k, later) == Get(s, k, later)
    ensures TypeOf(Sweep(s, now), k, later) == TypeOf(s, k, later)
  {
    SweepRefines(s, now);
    ReadsRefine(s, k, later);
    ReadsRefine(Sweep(s, now), k, later);
  }

  /** A value just written reads back if and only if the key was not holding an expiry
      that has already passed: overwriting keeps it, so such a key stays unreadable until
      the entry is swept. */
  lemma ReadYourWriteIff(s: StoreState, k: string, data: string, now: int)
    requires WellFormed(s)
    ensures Get(Set(s, k, data), k, now) == Some(data)
       <==> !(k in Abs(s.table) && Abs(s.table)[k].expiry != 0 && Abs(s.table)[k].expiry <= now)
    ensures Get(Set(Sweep(s, now + 1), k, data), k, now) == Some(data)
  {
    SetRefines(s, k, data);
    ReadsRefine(Set(s, k, data), k, now);
    SweepRefines(s, now + 1);
    var swept := Sweep(s, now + 1);
    SetRefines(swept, k, data);
    ReadsRefine(Set(swept, k, data), k, now);
  }

  // ----- Every run -----

  datatype Op =
    | OpSet(key: string, data: string)
    | OpExpire(key: string, expiry: int)
    | OpSweep(now: int)
    | OpStreamAdd(key: string, call: S.Call)

  ghost predicate Defined(s: StoreState, op: Op) {
    && |s.table| > 0
    && (op.OpSweep? ==> Total(s.table) <= s.used)
    && (op.OpStreamAdd? ==> op.call.now < U64 && StreamAddDefined(s, op.key))
  }

  ghost function Apply(s: StoreState, op: Op): StoreState
    requires Defined(s, op)
  {
    match op
    case OpSet(k, v) => Set(s, k, v)
    case OpExpire(k, e) => SetExpiry(s, k, e)
    case OpSweep(now) => Sweep(s, now)
    case OpStreamAdd(k, call) => StreamAdd(s, k, call)
  }

  ghost function MApply(m: Model, op: Op): Model {
    match op
    case OpSet(k, v) => MSet(m, k, v)
    case OpExpire(k, e) => MExpire(m, k, e)
    case OpSweep(now) => MSweep(m, now)
    case OpStreamAdd(k, call) =>
      if call.now < U64 && (k in m ==> m[k].value.StreamVal?) then MStreamAdd(m, k, call) else m
  }

  lemma ApplyRefines(s: StoreState, op: Op)
    requires WellFormed(s) && Defined(s, op)
    ensures WellFormed(Apply(s, op)) && Abs(Apply(s, op).table) == MApply(Abs(s.table), op)
  {
    match op
    case OpSet(k, v) => SetRefines(s, k, v);
    case OpExpire(k, e) => SetExpiryRefines(s, k, e);
    case OpSweep(now) => SweepRefines(s, now);
    case OpStreamAdd(k, call) => StreamAddRefines(s, k, call);
  }

  /** A run of operations in which every XADD finds no string under its key. */
  ghost predicate Runs(s: StoreState, ops: seq<Op>, last: StoreState)
    decreases |ops|
  {
    if ops == [] then last == s
    else Defined(s, ops[0]) && Runs(Apply(s, ops[0]), ops[1..], last)
  }

  ghost function MRun(m: Model, ops: seq<Op>): Model
    decreases |ops|
  {
    if ops == [] then m else MRun(MApply(m, ops[0]), ops[1..])
  }

  lemma {:induction false} RunRefinesFrom(s: StoreState, ops: seq<Op>, last: StoreState)
    requires WellFormed(s) && Runs(s, ops, last)
    ensures WellFormed(last) && Abs(last.table) == MRun(Abs(s.table), ops)
    decreases |ops|
  {
    if ops != [] {
      ApplyRefines(s, ops[0]);
      RunRefinesFrom(Apply(s, ops[0]), ops[1..], last);
    }
  }

  /** Every state reachable from a fresh store is well-formed, stands for the map that the
      same operations build, answers every read from it, and counts its keys in `used`. */
  lemma RunRefines(ops: seq<Op>, last: StoreState, k: string, now: int)
    requires Runs(Fresh(), ops, last)
    ensures WellFormed(last) && Abs(last.table) == MRun(map[], ops)
    ensures last.used == |MRun(map[], ops)|
    ensures Get(last, k, now) == MGet(MRun(map[], ops), k, now)
    ensures TypeOf(last, k, now) == MType(MRun(map[], ops), k, now)
    ensures GetStream(last, k) == MStream(MRun(map[], ops), k)
  {
    FreshRefines();
    RunRefinesFrom(Fresh(), ops, last);
    ReadsRefine(last, k, now);
    UsedIsMapSize(last);
  }

  /** storeSet doubles the table exactly when more than three quarters of it are used. */
  lemma SetGrowsIff(s: StoreState, k: string, data: string)
    requires |s.table| > 0 && s.used < 0x100_0000
    ensures |Set(s, k, data).table| == if 4 * s.used > 3 * |s.table| then 2 * |s.table| else |s.table|
  {
    Float32Exact(s.used);
  }

  // ----- Load -----

  ghost predicate Loaded(s: StoreState) {
    && (exists k: nat :: |s.table| == 16 * Pow2(k))
    && 4 * s.used <= 3 * |s.table| + 4
  }

  lemma GrownLoad(s: StoreState)
    requires WellFormed(s) && Loaded(s) && s.used < 0x100_0000
    ensures (exists k: nat :: |Grown(s).table| == 16 * Pow2(k))
    ensures 4 * Grown(s).used <= 3 * |Grown(s).table|
  {
    Float32Exact(s.used);
    var k: nat :| |s.table| == 16 * Pow2(k);
    assert 2 * Pow2(k) == Pow2(k + 1);
    if OverThreshold(s.used, |s.table|) {
      ResizeRefines(s);
      assert |Grown(s).table| == 16 * Pow2(k + 1);
    }
  }

  lemma SetLoad(s: StoreState, k: string, data: string)
    requires WellFormed(s) && Loaded(s) && s.used < 0x100_0000
    ensures Loaded(Set(s, k, data))
  {
    GrownLoad(s);
    PutLoad(Grown(s), k, data);
  }

  lemma PutLoad(s: StoreState, k: string, data: string)
    requires |s.table| > 0 && 4 * s.used <= 3 * |s.table|
    requires exists k: nat :: |s.table| == 16 * Pow2(k)
    ensures Loaded(Put(s, k, data))
  {
  }

  lemma SameSizeLoad(s: StoreState, s': StoreState)
    requires Loaded(s) && |s'.table| == |s.table| && s'.used <= s.used
    ensures Loaded(s')
  {
  }

  lemma ExpireLoad(s: StoreState, k: string, e: int)
    requires |s.table| > 0 && Loaded(s)
    ensures Loaded(SetExpiry(s, k, e))
  {
    SameSizeLoad(s, SetExpiry(s, k, e));
  }

  lemma SweepLoad(s: StoreState, now: int)
    requires Total(s.table) <= s.used && Loaded(s)
    ensures Loaded(Sweep(s, now))
  {
    SweepTotal(s.table, now);
    SameSizeLoad(s, Sweep(s, now));
  }

  lemma LoadStep(s: StoreState, op: Op)
    requires WellFormed(s) && Loaded(s) && Defined(s, op) && s.used < 0x100_0000
    requires !op.OpStreamAdd?
    ensures Loaded(Apply(s, op))
  {
    match op
    case OpSet(k, v) => SetLoad(s, k, v);
    case OpExpire(k, e) => ExpireLoad(s, k, e);
    case OpSweep(now) => SweepLoad(s, now);
  }

  ghost predicate Small(s: StoreState, ops: seq<Op>)
    decreases |ops|
  {
    ops != [] ==>
      && s.used < 0x100_0000 && !ops[0].OpStreamAdd?
      && (Defined(s, ops[0]) ==> Small(Apply(s, ops[0]), ops[1..]))
  }

  lemma {:induction false} LoadBoundFrom(s: StoreState, ops: seq<Op>, last: StoreState)
    requires WellFormed(s) && Loaded(s) && Runs(s, ops, last) && Small(s, ops)
    ensures Loaded(last)
    decreases |ops|
  {
    if ops != [] {
      ApplyRefines(s, ops[0]);
      LoadStep(s, ops[0]);
      LoadBoundFrom(Apply(s, ops[0]), ops[1..], last);
    }
  }

  /** In every run of storeSet, setExpiry and clearExpired from a fresh store with `used`
      below 2^24, the size is 16 times a power of two and 4*used <= 3*size + 4. */
  lemma LoadBound(ops: seq<Op>, last: StoreState)
    requires Runs(Fresh(), ops, last) && Small(Fresh(), ops)
    ensures Loaded(last)
  {
    FreshRefines();
    assert |Fresh().table| == 16 * Pow2(0);
    LoadBoundFrom(Fresh(), ops, last);
  }
}
