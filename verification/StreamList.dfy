/** The linked list behind a stream: nodes appended at `tail`, walked from `head`. */
module StreamLists {
  import opened CText
  import opened Streams

  class Node {
    const entry: Entry
    var next: Node?

    constructor (entry: Entry)
      ensures this.entry == entry && next == null
    {
      this.entry := entry;
      next := null;
    }
  }

  function EntriesOf(nodes: seq<Node>): (s: seq<Entry>)
    ensures |s| == |nodes|
    ensures forall i :: 0 <= i < |s| ==> s[i] == nodes[i].entry
  {
    seq(|nodes|, i requires 0 <= i < |nodes| => nodes[i].entry)
  }

  lemma RangeStep(s: seq<Entry>, i: nat, start: ID, end: ID, now: nat, sofar: seq<Entry>)
    requires i < |s| && now < U64
    ensures sofar + RangeScan(s[i..], start, end, now)
         == sofar + (if Keeps(s[i], start, end, now) then [s[i]] else []) + RangeScan(s[i + 1..], start, end, now)
  {
    assert s[i..][1..] == s[i + 1..];
  }

  lemma ReadStep(s: seq<Entry>, i: nat, id: ID, now: nat, sofar: seq<Entry>)
    requires i < |s| && now < U64
    ensures sofar + ReadScan(s[i..], id, now)
         == sofar + (if IsAfter(s[i], id, now) then [s[i]] else []) + ReadScan(s[i + 1..], id, now)
  {
    assert s[i..][1..] == s[i + 1..];
  }

  class Stream {
    var head: Node?
    var tail: Node?
    ghost var spine: seq<Node>

    ghost predicate Valid()
      reads this, spine
    {
      && (spine == [] ==> head == null && tail == null)
      && (spine != [] ==> head == spine[0] && tail == spine[|spine| - 1])
      && (forall i :: 0 <= i < |spine| ==> spine[i].next == At(i + 1))
      && (forall i, j :: 0 <= i < j < |spine| ==> spine[i] != spine[j])
    }

    ghost function At(i: nat): Node?
      reads this
    {
      if i < |spine| then spine[i] else null
    }

    ghost function Entries(): (s: seq<Entry>)
      reads this
      ensures |s| == |spine|
    {
      EntriesOf(spine)
    }

    constructor ()
      ensures Valid() && Entries() == []
    {
      head, tail, spine := null, null, [];
    }

    method NextSequence(ms: nat, now: nat) returns (r: nat)
      requires Valid() && now < U64
      ensures r == GetNextSequence(Entries(), ms, now)
    {
      if tail == null {
        return if ms == 0 then 1 else 0;
      }
      var lastId := ParseID(tail.entry.id, now);
      if lastId.Some? && lastId.value.ms == ms {
        return (lastId.value.seqNo + 1) % U64;
      }
      return 0;
    }

    method ValidNextID(id: ID, now: nat) returns (ok: bool)
      requires Valid() && now < U64
      ensures ok == IsValidNextID(Entries(), id, now)
    {
      if id.ms == 0 && id.seqNo == 0 {
        return false;
      }
      if tail == null {
        return true;
      }
      var lastId := ParseID(tail.entry.id, now);
      if lastId.None? || id.ms < lastId.value.ms {
        return false;
      }
      return !(id.ms == lastId.value.ms && id.seqNo <= lastId.value.seqNo);
    }

    /** streamAdd. */
    method Append(c: Call) returns (r: AddResult)
      requires Valid() && c.now < U64
      modifies this, spine
      ensures Valid() && r == AddOutcome(old(Entries()), c)
      ensures Entries() == Add(old(Entries()), c)
      ensures old(spine) <= spine && fresh(spine[|old(spine)|..])
    {
      var parsed := ParseID(c.id, c.now);
      if parsed.None? {
        return Unparseable;
      }
      var id := parsed.value;
      if id.seqNo == U64_MAX {
        var q := NextSequence(id.ms, c.now);
        id := ID(id.ms, q);
      }
      var ok := ValidNextID(id, c.now);
      if !ok {
        return Rejected(if id == ZERO then ERR_ZERO else ERR_SMALL);
      }
      r := Added(GenerateID(id.ms, id.seqNo));
      Link(Entry(r.id, c.fields, c.values));
    }

    method Link(e: Entry)
      requires Valid()
      modifies this, spine
      ensures Valid() && Entries() == old(Entries()) + [e]
      ensures old(spine) <= spine && fresh(spine[|old(spine)|..])
    {
      var node := new Node(e);
      if head == null {
        head := node;
      } else {
        tail.next := node;
      }
      tail := node;
      spine := spine + [node];
    }

    /** streamRange: walks the list and copies the entries in range. */
    method CopyRange(start: string, end: string, now: nat) returns (result: seq<Entry>, count: nat)
      requires Valid() && now < U64
      ensures result == Range(Entries(), start, end, now) && count == |result|
    {
      result, count := [], 0;
      var startId, endId := RangeStart(start, now), RangeEnd(end, now);
      if startId.None? || endId.None? {
        return;
      }
      result, count := WalkRange(startId.value, endId.value, now);
    }

    method WalkRange(start: ID, end: ID, now: nat) returns (result: seq<Entry>, count: nat)
      requires Valid() && now < U64
      ensures result == RangeScan(Entries(), start, end, now) && count == |result|
    {
      ghost var s := Entries();
      var entry, i := head, 0;
      result, count := [], 0;
      assert s[0..] == s;
      while entry != null
        invariant i <= |spine| && entry == At(i) && count == |result|
        invariant result + RangeScan(s[i..], start, end, now) == RangeScan(s, start, end, now)
        decreases |spine| - i
      {
        RangeStep(s, i, start, end, now, result);
        var entryId := ParseID(entry.entry.id, now);
        if entryId.Some? && IsIdInRange(entryId.value, start, end) {
          result := result + [entry.entry];
          count := count + 1;
        } else {
          assert result + [] == result;
        }
        entry, i := entry.next, i + 1;
      }
      assert result + [] == result;
    }

    /** streamRead: walks the list and copies the entries above an ID. */
    method CopyAfter(id: string, now: nat) returns (result: seq<Entry>, count: nat)
      requires Valid() && now < U64
      ensures result == Read(Entries(), id, now) && count == |result|
    {
      result, count := [], 0;
      var startId := ParseID(id, now);
      if startId.None? {
        return;
      }
      result, count := WalkAfter(startId.value, now);
    }

    method WalkAfter(id: ID, now: nat) returns (result: seq<Entry>, count: nat)
      requires Valid() && now < U64
      ensures result == ReadScan(Entries(), id, now) && count == |result|
    {
      ghost var s := Entries();
      var entry, i := head, 0;
      result, count := [], 0;
      assert s[0..] == s;
      while entry != null
        invariant i <= |spine| && entry == At(i) && count == |result|
        invariant result + ReadScan(s[i..], id, now) == ReadScan(s, id, now)
        decreases |spine| - i
      {
        ReadStep(s, i, id, now, result);
        var entryId := ParseID(entry.entry.id, now);
        if entryId.Some? && Compare(entryId.value, id) > 0 {
          result := result + [entry.entry];
          count := count + 1;
        } else {
          assert result + [] == result;
        }
        entry, i := entry.next, i + 1;
      }
      assert result + [] == result;
    }

    /** `$` in setupXreadStreams. */
    method TailID() returns (id: string)
      requires Valid()
      ensures id == Dollar(Entries())
    {
      id := if tail == null then "0-0" else tail.entry.id;
    }
  }
}
