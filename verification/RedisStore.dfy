/** RedisStore of app/redis_store.c: `table`, `size` and `used`, updated in place. */
module RedisStores {
  import opened Options
  import opened CText
  import opened Store
  import opened StoreTables
  import S = Streams

  class RedisStore {
    var table: BucketTable
    var size: nat
    var used: nat

    ghost predicate Valid()
      reads this, table, table.slots, table.repr
    {
      table.Valid() && size == table.slots.Length
    }

    /** What the store holds, bucket by bucket. */
    ghost function State(): StoreState
      reads this, table
    {
      StoreState(table.view, used)
    }

    ghost function Footprint(): set<object>
      reads this, table
    {
      {this, table, table.slots} + table.repr
    }

    constructor ()
      ensures Valid() && State() == Fresh() && fresh(Footprint())
    {
      table := new BucketTable(INITIAL_STORE_SIZE);
      size := INITIAL_STORE_SIZE;
      used := 0;
    }

    /** resize: walks every chain and relinks each entry into a table twice as large. */
    method ResizeTable()
      requires Valid()
      modifies Footprint()
      ensures Valid() && State() == Resize(old(State()))
      ensures fresh(Footprint() - old(Footprint()))
    {
      ghost var was := table.view;
      var newTable := new BucketTable(size * 2);
      var i := 0;
      while i < size
        invariant i <= size && table == old(table) && used == old(used) && size == old(size)
        invariant table.slots.Length == size && table.view == was && table.repr == old(table.repr)
        invariant table.ValidFrom(i, 0)
        invariant newTable.Valid() && fresh(newTable) && fresh(newTable.slots) && newTable.repr <= table.repr
        invariant |newTable.view| == newTable.slots.Length == 2 * size
        invariant RehashFrom(was, i, newTable.view) == RehashFrom(was, 0, EmptyTable(2 * size))
      {
        MoveChain(newTable, i);
        i := i + 1;
      }
      table := newTable;
      size := newTable.slots.Length;
    }

    /** The inner loop of resize on one bucket. */
    method MoveChain(newTable: BucketTable, i: nat)
      requires i < table.slots.Length && table.ValidFrom(i, 0)
      requires newTable != table && newTable.slots != table.slots
      requires newTable.Valid() && newTable.repr <= table.repr
      modifies newTable, newTable.slots, table.repr`next, table.repr`owner, table.repr`home
      ensures table.ValidFrom(i + 1, 0)
      ensures newTable.Valid() && newTable.repr <= table.repr
      ensures newTable.view == RehashChain(old(newTable.view), table.view[i])
    {
      ghost var was, k := newTable.view, 0;
      var entry := table.slots[i];
      while entry != null
        invariant k <= |table.chains[i]| && entry == table.At(i, k) && table.ValidFrom(i, k)
        invariant newTable.Valid() && newTable.repr <= table.repr && |newTable.view| == |was|
        invariant RehashChain(newTable.view, table.view[i][k..]) == RehashChain(was, table.view[i])
        decreases |table.chains[i]| - k
      {
        assert table.NodeOk(i, k);
        var next := entry.next;
        assert table.view[i][k..][1..] == table.view[i][k + 1..];
        StillValid(i, k);
        newTable.PushFront(entry);
        entry, k := next, k + 1;
      }
    }

    lemma StillValid(i: nat, k: nat)
      requires i < |table.chains| && k < |table.chains[i]| && table.ValidFrom(i, k)
      ensures forall c, j :: i <= c < |table.chains| && 0 <= j < |table.chains[c]| && (c == i ==> k < j) ==>
                table.chains[c][j] != table.chains[i][k]
    {
      forall c: nat, j: nat | i <= c < |table.chains| && j < |table.chains[c]| && (c == i ==> k < j)
        ensures table.chains[c][j] != table.chains[i][k]
      {
        assert table.NodeOk(c, j) && table.NodeOk(i, k);
        assert Distinct(table.chains[i]);
      }
    }

    method Put(key: string, data: string)
      requires Valid()
      modifies Footprint()
      ensures Valid() && State() == Store.Put(old(State()), key, data)
      ensures table == old(table) && fresh(Footprint() - old(Footprint()))
    {
      var n, b, i := table.Find(key);
      if n != null {
        table.Overwrite(n, Str(data), n.expiry, b, i);
      } else {
        var entry := new Node(key, Str(data));
        table.PushFront(entry);
        used := used + 1;
      }
    }

    /** storeSet. */
    method StoreSet(key: string, data: string)
      requires Valid()
      modifies Footprint()
      ensures Valid() && State() == Set(old(State()), key, data)
      ensures fresh(Footprint() - old(Footprint()))
    {
      if OverThreshold(used, size) {
        ResizeTable();
      }
      Put(key, data);
    }

    /** storeGet. */
    method StoreGet(key: string, now: int) returns (r: Option<string>)
      requires Valid()
      ensures r == Get(State(), key, now)
    {
      var n, _, _ := table.Find(key);
      if n == null || (n.expiry != 0 && n.expiry <= now) || !n.value.Str? {
        return None;
      }
      return Some(n.value.data);
    }

    /** getValueType. */
    method GetValueType(key: string, now: int) returns (r: ValueType)
      requires Valid()
      ensures r == TypeOf(State(), key, now)
    {
      var n, _, _ := table.Find(key);
      if n == null || (n.expiry != 0 && n.expiry < now) {
        return TypeNone;
      }
      return if n.value.Str? then TypeString else TypeStream;
    }

    /** setExpiry: whether the key was there. */
    method StoreExpiry(key: string, expiry: int) returns (found: bool)
      requires Valid()
      modifies Footprint()
      ensures Valid() && State() == SetExpiry(old(State()), key, expiry)
      ensures found <==> Lookup(old(State()).table, key).Some?
      ensures Footprint() == old(Footprint())
    {
      var n, b, i := table.Find(key);
      found := n != null;
      if n != null {
        table.Overwrite(n, n.value, expiry, b, i);
      }
    }

    /** storeGetStream. */
    method StoreGetStream(key: string) returns (r: Option<seq<S.Entry>>)
      requires Valid()
      ensures r == GetStream(State(), key)
    {
      var n, _, _ := table.Find(key);
      if n == null || !n.value.StreamVal? {
        return None;
      }
      return Some(n.value.entries);
    }

    /** Whether storeStreamAdd may treat what the key holds as a stream. */
    method HoldsNoString(key: string) returns (ok: bool)
      requires Valid()
      ensures ok == StreamAddDefined(State(), key)
    {
      var n, _, _ := table.Find(key);
      ok := n == null || n.value.StreamVal?;
    }

    /** storeStreamAdd: links an empty stream first when the key is absent, then adds. */
    method StoreStreamAdd(key: string, call: S.Call) returns (r: S.AddResult)
      requires Valid() && call.now < U64 && StreamAddDefined(State(), key)
      modifies Footprint()
      ensures Valid() && State() == StreamAdd(old(State()), key, call)
      ensures r == S.AddOutcome(StreamOf(old(State()), key), call)
      ensures fresh(Footprint() - old(Footprint()))
    {
      var n, b, i := table.Find(key);
      if n != null {
        r := S.AddOutcome(n.value.entries, call);
        table.Overwrite(n, StreamVal(S.Add(n.value.entries, call)), n.expiry, b, i);
      } else {
        r := S.AddOutcome([], call);
        var entry := new Node(key, StreamVal(S.Add([], call)));
        table.PushFront(entry);
        used := used + 1;
      }
    }

    /** clearExpired. */
    method ClearExpired(now: int)
      requires Valid() && Total(State().table) <= used
      modifies Footprint()
      ensures Valid() && State() == Sweep(old(State()), now)
      ensures fresh(Footprint() - old(Footprint()))
    {
      ghost var was := table.view;
      var i := 0;
      while i < size
        invariant i <= size && table == old(table) && size == old(size)
        invariant table.Valid() && table.repr <= old(table.repr)
        invariant |table.view| == |was| && Total(table.view) <= used
        invariant forall b :: 0 <= b < |was| ==> table.view[b] == if b < i then SweepChain(was[b], now) else was[b]
        invariant old(used) - used == Total(was) - Total(table.view)
      {
        ghost var before := table.view;
        TotalUpdate(before, i, SweepChain(before[i], now));
        var removed := table.SweepBucket(i, now);
        used := used - removed;
        i := i + 1;
      }
      assert table.view == SweepTable(was, now);
    }
  }

  lemma {:induction false} TotalUpdate(t: seq<Chain>, b: nat, c: Chain)
    requires b < |t|
    ensures Total(t[b := c]) == Total(t) - |t[b]| + |c|
  {
    if b == 0 {
      assert t[b := c][1..] == t[1..];
    } else {
      assert t[b := c][1..] == t[1..][b - 1 := c];
      TotalUpdate(t[1..], b - 1, c);
    }
  }
}
