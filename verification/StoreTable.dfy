/** The table of app/redis_store.c in memory: an array of linked chains whose entries are
    overwritten, prepended, relinked and unlinked in place. */
module StoreTables {
  import opened Options
  import opened Store

  /** StoreEntry. The ghost fields say which table holds the entry and in which bucket. */
  class Node {
    const key: string
    var value: Value
    var expiry: int
    var next: Node?
    ghost var owner: BucketTable?
    ghost var home: nat

    constructor (key: string, value: Value)
      ensures this.key == key && this.value == value && expiry == 0 && next == null && owner == null
    {
      this.key, this.value, expiry, next, owner := key, value, 0, null, null;
    }

    function AsItem(): Item
      reads this
    {
      Item(key, value, expiry)
    }
  }

  ghost function Without<T>(c: seq<T>, k: nat): (r: seq<T>)
    requires k < |c|
    ensures |r| == |c| - 1
    ensures forall i :: 0 <= i < |r| ==> r[i] == if i < k then c[i] else c[i + 1]
  {
    c[..k] + c[k + 1..]
  }

  ghost predicate Distinct(c: seq<Node>) {
    forall i, j :: 0 <= i < j < |c| ==> c[i] != c[j]
  }

  class BucketTable {
    const slots: array<Node?>
    ghost var chains: seq<seq<Node>>
    ghost var view: seq<Chain>
    ghost var repr: set<Node>

    ghost function At(b: nat, i: nat): Node?
      requires b < |chains|
      reads this
    {
      if i < |chains[b]| then chains[b][i] else null
    }

    ghost predicate NodeOk(b: nat, i: nat)
      requires b < |chains| == |view| && i < |chains[b]| == |view[b]|
      reads this, chains[b][i]
    {
      var n := chains[b][i];
      && n in repr
      && n.owner == this && n.home == b
      && n.next == At(b, i + 1)
      && n.AsItem() == view[b][i]
    }

    ghost predicate Shape()
      reads this
    {
      && 0 < slots.Length == |chains| == |view|
      && (forall b :: 0 <= b < |chains| ==> |chains[b]| == |view[b]|)
      && (forall b, i :: 0 <= b < |chains| && 0 <= i < |chains[b]| ==> chains[b][i] in repr)
      && (forall b :: 0 <= b < |chains| ==> Distinct(chains[b]))
    }

    /** Everything from entry k of bucket b on is in place. */
    ghost predicate ValidFrom(b: nat, k: nat)
      reads this, slots, repr
    {
      && Shape()
      && (forall c, i :: b <= c < |chains| && 0 <= i < |chains[c]| && (c == b ==> k <= i) ==> NodeOk(c, i))
      && (forall c :: b <= c < |chains| && (c == b ==> k == 0) ==> slots[c] == At(c, 0))
    }

    ghost predicate Valid()
      reads this, slots, repr
    {
      ValidFrom(0, 0) && forall n :: n in repr ==> n.owner == this
    }

    constructor (size: nat)
      requires size > 0
      ensures Valid() && slots.Length == size && repr == {} && view == EmptyTable(size)
      ensures fresh(slots)
    {
      slots := new Node?[size](_ => null);
      chains, view, repr := seq(size, _ => []), EmptyTable(size), {};
    }

    /** Links an entry in front of its chain (redis_store.c:57-58, 125-126, 233-234). */
    method PushFront(n: Node)
      requires Valid() && n !in repr
      modifies this, slots, n`next, n`owner, n`home
      ensures Valid() && view == Prepend(old(view), n.AsItem()) && repr == old(repr) + {n}
      ensures n.owner == this && n.AsItem() == old(n.AsItem())
    {
      var b := Bucket(n.key, slots.Length);
      n.next := slots[b];
      slots[b] := n;
      n.owner, n.home := this, b;
      view := Prepend(view, n.AsItem());
      chains := chains[b := [n] + chains[b]];
      repr := repr + {n};
      forall c: nat, i: nat | c < |chains| && i < |chains[c]| ensures NodeOk(c, i) {
        if c != b {
          assert old(NodeOk(c, i));
        } else if i > 0 {
          assert old(NodeOk(b, i - 1));
        }
      }
    }

    /** Walks one chain with strcmp; the result is the entry for the key or null. */
    method Find(key: string) returns (n: Node?, ghost b: nat, ghost i: nat)
      requires Valid()
      ensures b == Bucket(key, |view|) && i == Index(view[b], key)
      ensures n == At(b, i)
      ensures n != null ==> n in repr && n.key == key && Lookup(view, key) == Some(n.AsItem())
      ensures n == null ==> Lookup(view, key) == None
    {
      b := Bucket(key, slots.Length);
      n, i := slots[Bucket(key, slots.Length)], 0;
      while n != null
        invariant i <= |chains[b]| && n == At(b, i)
        invariant forall j :: 0 <= j < i ==> view[b][j].key != key
        decreases |chains[b]| - i
      {
        assert NodeOk(b, i);
        if n.key == key {
          IndexIs(view[b], key, i);
          return;
        }
        n, i := n.next, i + 1;
      }
      IndexIs(view[b], key, i);
    }

    /** Overwrites the value and expiry of an entry in place. */
    method Overwrite(n: Node, value: Value, expiry: int, ghost b: nat, ghost i: nat)
      requires Valid() && b < |chains| && i < |chains[b]| && n == chains[b][i]
      modifies this`view, n`value, n`expiry
      ensures Valid() && view == Replace(old(view), b, i, Item(n.key, value, expiry))
    {
      assert NodeOk(b, i);
      n.value, n.expiry := value, expiry;
      view := Replace(view, b, i, n.AsItem());
      forall c: nat, j: nat | c < |chains| && j < |chains[c]| ensures NodeOk(c, j) {
        assert old(NodeOk(c, j));
      }
    }

    ghost predicate Before(prev: Node?, b: nat, k: nat)
      requires b < |chains|
      reads this
    {
      if k == 0 then prev == null else k <= |chains[b]| && prev == chains[b][k - 1]
    }

    /** Unlinks entry k of bucket b: the pointer that led to it now leads past it. */
    method Unlink(prev: Node?, n: Node, b: nat, ghost k: nat)
      requires Valid() && b < |chains| && k < |chains[b]| && n == chains[b][k] && Before(prev, b, k)
      modifies this, slots, repr`next, repr`owner
      ensures Valid() && view == old(view)[b := Without(old(view)[b], k)]
      ensures chains == old(chains)[b := Without(old(chains)[b], k)]
      ensures repr <= old(repr) && n.next == old(n.next)
    {
      OthersDiffer(b, k);
      assert NodeOk(b, k);
      assert k > 0 ==> NodeOk(b, k - 1);
      if prev == null {
        slots[b] := n.next;
      } else {
        prev.next := n.next;
      }
      n.owner := null;
      repr := repr - {n};
      chains := chains[b := Without(chains[b], k)];
      view := view[b := Without(view[b], k)];
      forall c: nat, i: nat | c < |chains| && i < |chains[c]|
        ensures chains[c][i] in repr && NodeOk(c, i)
      {
        var j := if c == b && i >= k then i + 1 else i;
        assert chains[c][i] == old(chains[c][j]);
        assert old(NodeOk(c, j));
      }
    }

    lemma OthersDiffer(b: nat, k: nat)
      requires Valid() && b < |chains| && k < |chains[b]|
      ensures forall c, j :: 0 <= c < |chains| && 0 <= j < |chains[c]| && (c != b || j != k) ==> chains[c][j] != chains[b][k]
      ensures Distinct(Without(chains[b], k))
    {
      forall c: nat, j: nat | c < |chains| && j < |chains[c]| && (c != b || j != k)
        ensures chains[c][j] != chains[b][k]
      {
        assert NodeOk(c, j) && NodeOk(b, k);
        assert Distinct(chains[b]);
      }
    }

    /** The inner loop of clearExpired on one bucket. */
    method SweepBucket(b: nat, now: int) returns (removed: nat)
      requires Valid() && b < slots.Length
      modifies this, slots, repr`next, repr`owner
      ensures Valid() && repr <= old(repr)
      ensures view == old(view)[b := SweepChain(old(view)[b], now)]
      ensures removed == |old(view)[b]| - |view[b]|
    {
      ghost var was := view;
      var prev: Node?, n: Node? := null, slots[b];
      ghost var k := 0;
      removed := 0;
      while n != null
        invariant Valid() && repr <= old(repr) && k <= |chains[b]| && n == At(b, k) && Before(prev, b, k)
        invariant view == was[b := view[b]] && removed == |was[b]| - |view[b]|
        invariant SweepChain(view[b], now) == SweepChain(was[b], now)
        invariant forall i :: 0 <= i < k ==> !Expired(view[b][i], now)
        decreases |chains[b]| - k
      {
        assert NodeOk(b, k);
        var next := n.next;
        if n.expiry != 0 && n.expiry < now {
          SweepSkips(view[b], k, now);
          Unlink(prev, n, b, k);
          removed := removed + 1;
        } else {
          prev, k := n, k + 1;
        }
        n := next;
      }
      SweepNothing(view[b], now);
    }
  }

  lemma IndexIs(c: Chain, key: string, i: nat)
    requires i <= |c| && (i < |c| ==> c[i].key == key)
    requires forall j :: 0 <= j < i ==> c[j].key != key
    ensures Index(c, key) == i
  {
  }

  lemma {:induction false} SweepSkips(c: Chain, k: nat, now: int)
    requires k < |c| && Expired(c[k], now)
    ensures SweepChain(Without(c, k), now) == SweepChain(c, now)
  {
    if k == 0 {
      assert c[..0] + c[1..] == c[1..];
    } else {
      SweepSkips(c[1..], k - 1, now);
      assert (c[..k] + c[k + 1..])[1..] == c[1..][..k - 1] + c[1..][k..];
    }
  }

  lemma {:induction false} SweepNothing(c: Chain, now: int)
    requires forall i :: 0 <= i < |c| ==> !Expired(c[i], now)
    ensures SweepChain(c, now) == c
  {
    if c != [] {
      SweepNothing(c[1..], now);
    }
  }
}
