/** The chained hash table of app/redis_store.c as a value, and the map it stands for. */
module Store {
  import opened Options
  import opened CText
  import S = Streams

  datatype Value = Str(data: string) | StreamVal(entries: seq<S.Entry>)

  datatype Item = Item(key: string, value: Value, expiry: int)

  type Chain = seq<Item>

  /** `table` and `used`; `size` is the number of buckets. */
  datatype StoreState = StoreState(table: seq<Chain>, used: nat)

  const INITIAL_STORE_SIZE: nat := 16

  // ----- Hashing -----

  /** A plain `char` is signed: bytes from 128 up are negative. */
  function SignedChar(c: char): int {
    var b := c as int % 256;
    if b >= 128 then b - 256 else b
  }

  function HashFrom(h: nat, key: string): (r: nat)
    requires h < U64
    ensures r < U64
    decreases key
  {
    if key == "" then h else HashFrom((h * 33 + SignedChar(key[0])) % U64, key[1..])
  }

  function Hash(key: string): (r: nat) {
    HashFrom(5381, key)
  }

  function Bucket(key: string, size: nat): (b: nat)
    requires size > 0
    ensures b < size
  {
    Hash(key) % size
  }

  /** hash(key) without wrap-around, every byte read as a signed char. */
  function Unwrapped(h: int, key: string): int
    decreases key
  {
    if key == "" then h
    else
      var b := key[0] as int % 256;
      Unwrapped(33 * h + (if b < 128 then b else b - 256), key[1..])
  }

  lemma WrapOnce(h: int, c: int)
    ensures exists q: int :: (h % U64 * 33 + c) % U64 == 33 * h + c + q * U64
  {
    var q1, x := h / U64, h % U64 * 33 + c;
    assert h == q1 * U64 + h % U64;
    assert x == x / U64 * U64 + x % U64;
    assert x % U64 == 33 * h + c + (-(33 * q1) - x / U64) * U64;
  }

  lemma SameResidue(a: int, b: int, q: int)
    requires 0 <= a < U64 && a == b + q * U64
    ensures a == b % U64
  {
    assert b == (-q) * U64 + a;
  }

  lemma {:induction false} HashFromIs(h: int, key: string)
    ensures HashFrom(h % U64, key) == Unwrapped(h, key) % U64
    decreases key
  {
    if key != "" {
      var c := SignedChar(key[0]);
      WrapOnce(h, c);
      var q: int :| (h % U64 * 33 + c) % U64 == 33 * h + c + q * U64;
      SameResidue((h % U64 * 33 + c) % U64, 33 * h + c, q);
      HashFromIs(33 * h + c, key[1..]);
    }
  }

  /** The hash is the polynomial in 33 that starts from 5381, modulo 2^64. */
  lemma HashIs(key: string)
    ensures Hash(key) == Unwrapped(5381, key) % 0x1_0000_0000_0000_0000
  {
    HashFromIs(5381, key);
  }

  // ----- Chains and tables -----

  function Index(c: Chain, key: string): (i: nat)
    ensures i <= |c|
    ensures i < |c| ==> c[i].key == key
    ensures forall j :: 0 <= j < i ==> c[j].key != key
  {
    if c == [] || c[0].key == key then 0 else 1 + Index(c[1..], key)
  }

  function Lookup(t: seq<Chain>, key: string): (r: Option<Item>)
    requires |t| > 0
  {
    var c := t[Bucket(key, |t|)];
    var i := Index(c, key);
    if i < |c| then Some(c[i]) else None
  }

  function Replace(t: seq<Chain>, b: nat, i: nat, x: Item): (t': seq<Chain>)
    requires b < |t| && i < |t[b]|
  {
    t[b := t[b][i := x]]
  }

  function Prepend(t: seq<Chain>, x: Item): (t': seq<Chain>)
    requires |t| > 0
    ensures |t'| == |t|
  {
    var b := Bucket(x.key, |t|);
    t[b := [x] + t[b]]
  }

  function RehashChain(t: seq<Chain>, c: Chain): (t': seq<Chain>)
    requires |t| > 0
    ensures |t'| == |t|
    decreases |c|
  {
    if c == [] then t else RehashChain(Prepend(t, c[0]), c[1..])
  }

  function RehashFrom(from: seq<Chain>, i: nat, to: seq<Chain>): (t': seq<Chain>)
    requires |to| > 0 && i <= |from|
    ensures |t'| == |to|
    decreases |from| - i
  {
    if i == |from| then to else RehashFrom(from, i + 1, RehashChain(to, from[i]))
  }

  function EmptyTable(n: nat): (t: seq<Chain>)
    ensures |t| == n && forall b :: 0 <= b < n ==> t[b] == []
  {
    seq(n, _ => [])
  }

  // ----- The load test, in single precision -----

  function Pow2(k: nat): (p: nat)
    ensures p >= 1
  {
    if k == 0 then 1 else 2 * Pow2(k - 1)
  }

  /** The float nearest to n, ties to even: 24 significant bits. */
  function Float32(n: nat, shift: nat := 0): nat
    decreases n - shift
  {
    var unit := Pow2(shift);
    if n <= shift || n / unit < 0x100_0000 then
      var q, r := n / unit, n % unit;
      if 2 * r > unit || (2 * r == unit && q % 2 == 1) then (q + 1) * unit else q * unit
    else Float32(n, shift + 1)
  }

  /** (float)used / size > 0.75; the quotient is exact because size is a power of two. */
  predicate OverThreshold(used: nat, size: nat) {
    4 * Float32(used) > 3 * size
  }

  lemma Float32Exact(n: nat)
    requires n < 0x100_0000
    ensures Float32(n) == n
  {
    assert n / Pow2(0) == n && n % Pow2(0) == 0;
  }

  // ----- Operations -----

  function Fresh(): StoreState {
    StoreState(EmptyTable(INITIAL_STORE_SIZE), 0)
  }

  function Resize(s: StoreState): StoreState
    requires |s.table| > 0
  {
    s.(table := RehashFrom(s.table, 0, EmptyTable(2 * |s.table|)))
  }

  function Grown(s: StoreState): (r: StoreState)
    requires |s.table| > 0
    ensures |r.table| > 0
  {
    if OverThreshold(s.used, |s.table|) then Resize(s) else s
  }

  /** storeSet after the load test: overwrite in place, keeping the expiry, or prepend. */
  function Put(s: StoreState, key: string, data: string): (r: StoreState)
    requires |s.table| > 0
    ensures |r.table| == |s.table|
  {
    var b := Bucket(key, |s.table|);
    var i := Index(s.table[b], key);
    if i < |s.table[b]| then
      s.(table := Replace(s.table, b, i, Item(key, Str(data), s.table[b][i].expiry)))
    else
      StoreState(Prepend(s.table, Item(key, Str(data), 0)), s.used + 1)
  }

  function Set(s: StoreState, key: string, data: string): (r: StoreState)
    requires |s.table| > 0
    ensures |r.table| > 0
  {
    Put(Grown(s), key, data)
  }

  /** storeGet: a live string value, read at time now. */
  function Get(s: StoreState, key: string, now: int): Option<string>
    requires |s.table| > 0
  {
    match Lookup(s.table, key)
    case Some(Item(_, Str(data), e)) => if e != 0 && e <= now then None else Some(data)
    case _ => None
  }

  datatype ValueType = TypeNone | TypeString | TypeStream

  /** getValueType compares the expiry with a clock of its own. */
  function TypeOf(s: StoreState, key: string, now: int): ValueType
    requires |s.table| > 0
  {
    match Lookup(s.table, key)
    case None => TypeNone
    case Some(Item(_, v, e)) =>
      if e != 0 && e < now then TypeNone else if v.Str? then TypeString else TypeStream
  }

  function SetExpiry(s: StoreState, key: string, expiry: int): (r: StoreState)
    requires |s.table| > 0
    ensures |r.table| == |s.table|
  {
    var b := Bucket(key, |s.table|);
    var i := Index(s.table[b], key);
    if i < |s.table[b]| then s.(table := Replace(s.table, b, i, s.table[b][i].(expiry := expiry))) else s
  }

  predicate Expired(x: Item, now: int) {
    x.expiry != 0 && x.expiry < now
  }

  function SweepChain(c: Chain, now: int): (r: Chain)
    ensures |r| <= |c|
  {
    if c == [] then []
    else if Expired(c[0], now) then SweepChain(c[1..], now)
    else [c[0]] + SweepChain(c[1..], now)
  }

  function SweepTable(t: seq<Chain>, now: int): (r: seq<Chain>)
    ensures |r| == |t|
    ensures forall b :: 0 <= b < |t| ==> r[b] == SweepChain(t[b], now)
  {
    seq(|t|, b requires 0 <= b < |t| => SweepChain(t[b], now))
  }

  /** The total chain length. */
  function Total(t: seq<Chain>): nat {
    if t == [] then 0 else |t[0]| + Total(t[1..])
  }

  lemma {:induction false} SweepTotal(t: seq<Chain>, now: int)
    ensures Total(SweepTable(t, now)) <= Total(t)
  {
    if t != [] {
      assert SweepTable(t, now)[1..] == SweepTable(t[1..], now);
      SweepTotal(t[1..], now);
    }
  }

  /** clearExpired: unlinks every expired entry and counts it off `used`. */
  function Sweep(s: StoreState, now: int): StoreState
    requires Total(s.table) <= s.used
  {
    SweepTotal(s.table, now);
    StoreState(SweepTable(s.table, now), s.used - (Total(s.table) - Total(SweepTable(s.table, now))))
  }

  /** The stream under a key, if there is one (storeGetStream). */
  function GetStream(s: StoreState, key: string): Option<seq<S.Entry>>
    requires |s.table| > 0
  {
    match Lookup(s.table, key)
    case Some(Item(_, StreamVal(entries), _)) => Some(entries)
    case _ => None
  }

  /** storeStreamAdd dereferences the entry as a stream without looking at its type. */
  predicate StreamAddDefined(s: StoreState, key: string)
    requires |s.table| > 0
  {
    match Lookup(s.table, key)
    case Some(x) => x.value.StreamVal?
    case None => true
  }

  /** storeStreamAdd: creates an empty stream when the key is absent, then adds to it;
      the table is never resized here. */
  function StreamAdd(s: StoreState, key: string, call: S.Call): (r: StoreState)
    requires |s.table| > 0 && call.now < U64 && StreamAddDefined(s, key)
    ensures |r.table| == |s.table|
  {
    var b := Bucket(key, |s.table|);
    var i := Index(s.table[b], key);
    if i < |s.table[b]| then
      var x := s.table[b][i];
      s.(table := Replace(s.table, b, i, x.(value := StreamVal(S.Add(x.value.entries, call)))))
    else
      StoreState(Prepend(s.table, Item(key, StreamVal(S.Add([], call)), 0)), s.used + 1)
  }

  function StreamOf(s: StoreState, key: string): seq<S.Entry>
    requires |s.table| > 0 && StreamAddDefined(s, key)
  {
    match Lookup(s.table, key)
    case Some(x) => x.value.entries
    case None => []
  }

  // ----- The bag of items in a table -----

  function Bag(t: seq<Chain>): multiset<Item> {
    if t == [] then multiset{} else multiset(t[0]) + Bag(t[1..])
  }

  lemma {:induction false} BagIn(t: seq<Chain>, b: nat)
    requires b < |t|
    ensures multiset(t[b]) <= Bag(t)
  {
    if b > 0 {
      BagIn(t[1..], b - 1);
    }
  }

  lemma {:induction false} BagFind(t: seq<Chain>, x: Item) returns (b: nat, i: nat)
    requires x in Bag(t)
    ensures b < |t| && i < |t[b]| && t[b][i] == x
  {
    if x in t[0] {
      b := 0;
      i :| 0 <= i < |t[0]| && t[0][i] == x;
    } else {
      var b', i' := BagFind(t[1..], x);
      b, i := b' + 1, i';
      assert t[b] == t[1..][b'];
    }
  }

  lemma {:induction false} BagUpdate(t: seq<Chain>, b: nat, c: Chain)
    requires b < |t|
    ensures Bag(t[b := c]) + multiset(t[b]) == Bag(t) + multiset(c)
  {
    if b == 0 {
      assert t[b := c] == [c] + t[1..];
    } else {
      var rest := t[1..];
      BagUpdate(rest, b - 1, c);
      assert t[b := c][1..] == rest[b - 1 := c];
      assert multiset(t[0]) + Bag(rest[b - 1 := c]) + multiset(t[b])
          == multiset(t[0]) + (Bag(rest[b - 1 := c]) + multiset(rest[b - 1]));
      assert multiset(t[0]) + (Bag(rest) + multiset(c)) == Bag(t) + multiset(c);
    }
  }

  lemma {:induction false} BagTotal(t: seq<Chain>)
    ensures |Bag(t)| == Total(t)
  {
    if t != [] {
      BagTotal(t[1..]);
    }
  }

  lemma {:induction false} BagEmpty(t: seq<Chain>)
    requires forall b :: 0 <= b < |t| ==> t[b] == []
    ensures Bag(t) == multiset{}
  {
    if t != [] {
      assert t[0] == [];
      BagEmpty(t[1..]);
    }
  }

  lemma SwapOne(after: multiset<Item>, before: multiset<Item>, c: multiset<Item>, a: Item, x: Item)
    requires a in c && c <= before
    requires after + c == before + (c - multiset{a} + multiset{x})
    ensures after == before - multiset{a} + multiset{x}
  {
    forall y: Item ensures after[y] == (before - multiset{a} + multiset{x})[y] {
      assert (after + c)[y] == (before + (c - multiset{a} + multiset{x}))[y];
    }
  }

  lemma AddOne(after: multiset<Item>, before: multiset<Item>, c: multiset<Item>, x: Item)
    requires after + c == before + (multiset{x} + c)
    ensures after == before + multiset{x}
  {
    forall y: Item ensures after[y] == (before + multiset{x})[y] {
      assert (after + c)[y] == (before + (multiset{x} + c))[y];
    }
  }

  lemma UpdateMultiset(c: Chain, i: nat, x: Item)
    requires i < |c|
    ensures multiset(c[i := x]) == multiset(c) - multiset{c[i]} + multiset{x}
  {
  }

  lemma ReplaceBag(t: seq<Chain>, b: nat, i: nat, x: Item)
    requires b < |t| && i < |t[b]|
    ensures t[b][i] in Bag(t)
    ensures Bag(Replace(t, b, i, x)) == Bag(t) - multiset{t[b][i]} + multiset{x}
  {
    var c := t[b];
    BagIn(t, b);
    BagUpdate(t, b, c[i := x]);
    UpdateMultiset(c, i, x);
    assert c[i] in multiset(c);
    SwapOne(Bag(Replace(t, b, i, x)), Bag(t), multiset(c), c[i], x);
  }

  lemma PrependBag(t: seq<Chain>, x: Item)
    requires |t| > 0
    ensures Bag(Prepend(t, x)) == Bag(t) + multiset{x}
  {
    var b := Bucket(x.key, |t|);
    BagUpdate(t, b, [x] + t[b]);
    assert multiset([x] + t[b]) == multiset{x} + multiset(t[b]);
    AddOne(Bag(Prepend(t, x)), Bag(t), multiset(t[b]), x);
  }

  lemma {:induction false} RehashChainBag(t: seq<Chain>, c: Chain)
    requires |t| > 0
    ensures Bag(RehashChain(t, c)) == Bag(t) + multiset(c)
    decreases |c|
  {
    if c != [] {
      PrependBag(t, c[0]);
      RehashChainBag(Prepend(t, c[0]), c[1..]);
      assert c == [c[0]] + c[1..];
    }
  }

  lemma {:induction false} RehashBag(from: seq<Chain>, i: nat, to: seq<Chain>)
    requires |to| > 0 && i <= |from|
    ensures Bag(RehashFrom(from, i, to)) == Bag(to) + Bag(from[i..])
    decreases |from| - i
  {
    if i < |from| {
      RehashChainBag(to, from[i]);
      RehashBag(from, i + 1, RehashChain(to, from[i]));
      assert from[i..][1..] == from[i + 1..];
    }
  }

  // ----- Well-formed tables -----

  /** Each entry sits in bucket hash(key) mod size. */
  ghost predicate Placed(t: seq<Chain>) {
    forall b, i :: 0 <= b < |t| && 0 <= i < |t[b]| ==> Bucket(t[b][i].key, |t|) == b
  }

  ghost predicate UniqueKeys(m: multiset<Item>) {
    && (forall x :: x in m ==> m[x] == 1)
    && (forall x, y :: x in m && y in m && x.key == y.key ==> x == y)
  }

  ghost predicate WellFormed(s: StoreState) {
    && |s.table| > 0
    && Placed(s.table)
    && UniqueKeys(Bag(s.table))
    && s.used == Total(s.table)
  }

  lemma PrependPlaced(t: seq<Chain>, x: Item)
    requires |t| > 0 && Placed(t)
    ensures Placed(Prepend(t, x))
  {
    var t': seq<Chain> := Prepend(t, x);
    forall b: nat, i: nat | 0 <= b < |t'| && 0 <= i < |t'[b]| ensures Bucket(t'[b][i].key, |t'|) == b {
      if b == Bucket(x.key, |t|) && i > 0 {
        assert t'[b][i] == t[b][i - 1];
      }
    }
  }

  lemma {:induction false} RehashChainPlaced(t: seq<Chain>, c: Chain)
    requires |t| > 0 && Placed(t)
    ensures Placed(RehashChain(t, c))
    decreases |c|
  {
    if c != [] {
      PrependPlaced(t, c[0]);
      RehashChainPlaced(Prepend(t, c[0]), c[1..]);
    }
  }

  lemma {:induction false} RehashPlaced(from: seq<Chain>, i: nat, to: seq<Chain>)
    requires |to| > 0 && i <= |from| && Placed(to)
    ensures Placed(RehashFrom(from, i, to))
    decreases |from| - i
  {
    if i < |from| {
      RehashChainPlaced(to, from[i]);
      RehashPlaced(from, i + 1, RehashChain(to, from[i]));
    }
  }

  /** Walking one chain finds an item exactly when the whole table holds it. */
  lemma LookupFinds(t: seq<Chain>, x: Item)
    requires |t| > 0 && Placed(t) && UniqueKeys(Bag(t))
    ensures x in Bag(t) <==> Lookup(t, x.key) == Some(x)
  {
    var b0 := Bucket(x.key, |t|);
    BagIn(t, b0);
    if x in Bag(t) {
      var b, i := BagFind(t, x);
      assert b == b0;
      var j := Index(t[b], x.key);
      assert t[b][j] in t[b];
      assert t[b][j] in Bag(t);
    }
    if Lookup(t, x.key) == Some(x) {
      assert x in t[b0];
      assert x in Bag(t);
    }
  }

  // ----- The map it stands for -----

  datatype Cell = Cell(value: Value, expiry: int)

  type Model = map<string, Cell>

  /** Key to (type and value, expiry). */
  function Abs(t: seq<Chain>): (m: Model)
    requires |t| > 0
  {
    map k | k in (set x | x in Bag(t) :: x.key) && Lookup(t, k).Some? ::
      Cell(Lookup(t, k).value.value, Lookup(t, k).value.expiry)
  }

  lemma LookupKey(t: seq<Chain>, k: string)
    requires |t| > 0
    ensures Lookup(t, k).Some? ==> Lookup(t, k).value.key == k && Lookup(t, k).value in Bag(t)
  {
    BagIn(t, Bucket(k, |t|));
    if Lookup(t, k).Some? {
      assert Lookup(t, k).value in t[Bucket(k, |t|)];
    }
  }

  lemma AbsLookup(t: seq<Chain>, k: string)
    requires |t| > 0
    ensures k in Abs(t) <==> Lookup(t, k).Some?
    ensures k in Abs(t) ==> Abs(t)[k] == Cell(Lookup(t, k).value.value, Lookup(t, k).value.expiry)
  {
    LookupKey(t, k);
  }

  lemma AbsHolds(t: seq<Chain>, k: string, c: Cell)
    requires |t| > 0 && Placed(t) && UniqueKeys(Bag(t))
    ensures (k in Abs(t) && Abs(t)[k] == c) <==> Item(k, c.value, c.expiry) in Bag(t)
  {
    AbsLookup(t, k);
    LookupKey(t, k);
    LookupFinds(t, Item(k, c.value, c.expiry));
  }

  lemma AbsAgrees(t: seq<Chain>, m: Model, k: string)
    requires |t| > 0 && Placed(t) && UniqueKeys(Bag(t))
    requires k in m ==> Item(k, m[k].value, m[k].expiry) in Bag(t)
    requires forall x :: x in Bag(t) && x.key == k ==> k in m && m[k] == Cell(x.value, x.expiry)
    ensures k in Abs(t) <==> k in m
    ensures k in m ==> Abs(t)[k] == m[k]
  {
    if k in m {
      AbsHolds(t, k, m[k]);
    } else {
      AbsLookup(t, k);
      LookupKey(t, k);
    }
  }

  /** The map is determined by the bag of items, wherever they sit. */
  lemma AbsOfBag(t: seq<Chain>, m: Model)
    requires |t| > 0 && Placed(t) && UniqueKeys(Bag(t))
    requires forall k :: k in m ==> Item(k, m[k].value, m[k].expiry) in Bag(t)
    requires forall x :: x in Bag(t) ==> x.key in m && m[x.key] == Cell(x.value, x.expiry)
    ensures Abs(t) == m
  {
    forall k: string ensures k in Abs(t) <==> k in m ensures k in m ==> Abs(t)[k] == m[k] {
      AbsAgrees(t, m, k);
    }
    assert Abs(t).Keys == m.Keys;
  }

  /** `used` counts the keys of the map. */
  lemma UsedIsMapSize(s: StoreState)
    requires WellFormed(s)
    ensures s.used == |Abs(s.table)|
  {
    BagTotal(s.table);
    var m := Bag(s.table);
    KeyCount(m);
    var keys := set x | x in m :: x.key;
    forall k ensures k in Abs(s.table) <==> k in keys {
      AbsLookup(s.table, k);
      if k in keys {
        var x :| x in m && x.key == k;
        LookupFinds(s.table, x);
      }
      LookupKey(s.table, k);
    }
    assert Abs(s.table).Keys == keys;
  }

  lemma {:induction false} KeyCount(m: multiset<Item>)
    requires UniqueKeys(m)
    ensures |set x | x in m :: x.key| == |m|
    decreases |m|
  {
    if m != multiset{} {
      var x :| x in m;
      var rest := m - multiset{x};
      KeyCount(rest);
      assert (set y | y in m :: y.key) == (set y | y in rest :: y.key) + {x.key};
      assert x.key !in (set y | y in rest :: y.key);
    } else {
      assert (set x | x in m :: x.key) == {};
    }
  }
}
