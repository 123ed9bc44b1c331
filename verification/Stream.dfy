/** Streams of app/stream.c: IDs are stored as text and reparsed on every use. */
module Streams {
  import opened Options
  import opened CText

  /** A parsed StreamID: two unsigned 64-bit numbers. */
  datatype ID = ID(ms: nat, seqNo: nat) {
    predicate Valid() {
      ms < U64 && seqNo < U64
    }
  }

  const ZERO: ID := ID(0, 0)
  const MAX: ID := ID(U64_MAX, U64_MAX)

  datatype Entry = Entry(id: string, fields: seq<string>, values: seq<string>)

  // ----- Order on IDs -----

  /** compareStreamIDs(a, b) as an integer below, equal to or above 0. */
  function Compare(a: ID, b: ID): int {
    if a.ms != b.ms then (if a.ms > b.ms then 1 else -1)
    else if a.seqNo != b.seqNo then (if a.seqNo > b.seqNo then 1 else -1)
    else 0
  }

  predicate Less(a: ID, b: ID) {
    a.ms < b.ms || (a.ms == b.ms && a.seqNo < b.seqNo)
  }

  predicate IsIdInRange(id: ID, start: ID, end: ID) {
    if id.ms < start.ms || id.ms > end.ms then false
    else if id.ms == start.ms && id.seqNo < start.seqNo then false
    else if id.ms == end.ms && id.seqNo > end.seqNo then false
    else true
  }

  /** isIdInRange agrees with compareStreamIDs, which is the order on pairs. */
  lemma RangeIsCompare(id: ID, start: ID, end: ID)
    ensures IsIdInRange(id, start, end) <==> Compare(start, id) <= 0 && Compare(id, end) <= 0
    ensures Compare(start, end) < 0 <==> Less(start, end)
    ensures Compare(start, end) == 0 <==> start == end
  {
  }

  // ----- ID text -----

  /** strchr(s, '-') as an index, |s| when there is no dash. */
  function FirstDash(s: string): (i: nat)
    ensures i <= |s|
    ensures i < |s| ==> s[i] == '-'
    ensures '-' !in s[..i]
  {
    if s == "" || s[0] == '-' then 0
    else
      assert s[..1 + FirstDash(s[1..])] == [s[0]] + s[1..][..FirstDash(s[1..])];
      1 + FirstDash(s[1..])
  }

  /** parseStreamID; `now` is the clock that "*" reads. */
  function ParseID(id: string, now: nat): (r: Option<ID>)
    requires now < U64
    ensures r.Some? ==> r.value.Valid()
  {
    if id == "*" then Some(ID(now, U64_MAX))
    else
      var dash := FirstDash(id);
      if dash == |id| || dash == 0 then None
      else if dash + 1 < |id| && id[dash + 1] == '*' then Some(ID(StrToU64(id), U64_MAX))
      else if ScanEnd(id) != dash then None
      else
        var rest := id[dash + 1..];
        if ScanEnd(rest) != |rest| then None
        else Some(ID(StrToU64(id), StrToU64(rest)))
  }

  const ID_BUFFER: nat := 32

  /** generateStreamID: snprintf into 32 bytes keeps at most 31 characters. */
  function GenerateID(ms: nat, seqNo: nat): (s: string)
    ensures |s| < ID_BUFFER
  {
    var full := Dec(ms) + "-" + Dec(seqNo);
    if |full| < ID_BUFFER then full else full[..ID_BUFFER - 1]
  }

  predicate Fits(id: ID) {
    |Dec(id.ms)| + |Dec(id.seqNo)| <= 30
  }

  /** How many digits of the sequence number the buffer cuts off. */
  function Excess(id: ID): nat {
    if Fits(id) then 0 else |Dec(id.ms)| + |Dec(id.seqNo)| - 30
  }

  /** What is left of an ID once it has been printed and reparsed. */
  function Stored(id: ID): (r: ID)
    ensures r.ms == id.ms && r.seqNo <= id.seqNo
  {
    ID(id.ms, DropDigits(id.seqNo, Excess(id)))
  }

  lemma {:induction false} FirstDashAfter(p: string, rest: string)
    requires '-' !in p
    ensures FirstDash(p + "-" + rest) == |p|
  {
    if p == "" {
      assert p + "-" + rest == "-" + rest;
    } else {
      assert (p + "-" + rest)[1..] == p[1..] + "-" + rest;
      FirstDashAfter(p[1..], rest);
    }
  }

  lemma U64Read(n: nat, rest: string)
    requires n < U64 && (rest == "" || !IsDigit(rest[0]))
    ensures StrToU64(Dec(n) + rest) == n && ScanEnd(Dec(n) + rest) == |Dec(n)|
  {
    ScanDec(n, rest);
  }

  lemma ParsePrintedID(id: ID, now: nat)
    requires id.Valid() && now < U64
    ensures ParseID(Dec(id.ms) + "-" + Dec(id.seqNo), now) == Some(id)
  {
    var a, b := Dec(id.ms), Dec(id.seqNo);
    var s := a + "-" + b;
    assert '-' !in a;
    FirstDashAfter(a, b);
    assert s[|a| + 1..] == b;
    assert s == a + ("-" + b);
    U64Read(id.ms, "-" + b);
    U64Read(id.seqNo, "");
    assert b + "" == b;
    assert IsDigit(s[0]) && IsDigit(s[|a| + 1]);
  }

  lemma GeneratedText(id: ID)
    requires id.Valid()
    ensures GenerateID(id.ms, id.seqNo) == Dec(Stored(id).ms) + "-" + Dec(Stored(id).seqNo)
  {
    U64Digits(id.ms);
    U64Digits(id.seqNo);
    var k := Excess(id);
    DecPrefix(id.seqNo, k);
    var a, b := Dec(id.ms), Dec(id.seqNo);
    assert k > 0 ==> (a + "-" + b)[..31] == a + "-" + b[..|b| - k];
  }

  /** Printing and reparsing any 64-bit ID keeps its milliseconds and drops exactly the
      sequence digits that did not fit. */
  lemma ReparsedID(id: ID, now: nat)
    requires id.Valid() && now < U64
    ensures ParseID(GenerateID(id.ms, id.seqNo), now) == Some(Stored(id))
  {
    GeneratedText(id);
    ParsePrintedID(Stored(id), now);
  }

  /** The text round trip holds if and only if the two decimal lengths total at most 30;
      beyond that the sequence number read back is strictly smaller. */
  lemma IDRoundTrip(id: ID, now: nat)
    requires id.Valid() && now < U64
    ensures ParseID(GenerateID(id.ms, id.seqNo), now) == Some(id) <==> Fits(id)
    ensures !Fits(id) ==> exists r :: ParseID(GenerateID(id.ms, id.seqNo), now) == Some(r)
                                      && r.ms == id.ms && r.seqNo < id.seqNo
                                      && r.seqNo == id.seqNo / Pow10(Excess(id))
  {
    ReparsedID(id, now);
    DropDigitsIsQuotient(id.seqNo, Excess(id));
    if !Fits(id) {
      U64Digits(id.ms);
      assert id.seqNo > 0;
    }
  }

  // ----- streamAdd -----

  datatype AddResult = Added(id: string) | Rejected(message: string) | Unparseable

  // The messages are written in pieces: the verifier expands long string literals.
  const ZERO_ID_TEXT: string := "ERR The ID specified in " + "XADD must be greater than 0-0"
  const SMALL_ID_TEXT: string := "ERR The ID specified in " + ("XADD is equal or smaller than " + "the target stream top item")
  const ERR_ZERO: string := "-" + ZERO_ID_TEXT
  const ERR_SMALL: string := "-" + SMALL_ID_TEXT

  /** The ID at the tail, as the reparse sees it; a tail that does not parse is None. */
  function LastID(s: seq<Entry>, now: nat): Option<ID>
    requires now < U64 && s != []
  {
    ParseID(s[|s| - 1].id, now)
  }

  function GetNextSequence(s: seq<Entry>, ms: nat, now: nat): (r: nat)
    requires now < U64
    ensures r < U64
  {
    if s == [] then (if ms == 0 then 1 else 0)
    else
      match LastID(s, now)
      case Some(last) => if last.ms == ms then (last.seqNo + 1) % U64 else 0
      case None => 0
  }

  predicate IsValidNextID(s: seq<Entry>, id: ID, now: nat)
    requires now < U64
  {
    if id == ZERO then false
    else if s == [] then true
    else
      match LastID(s, now)
      case None => false
      case Some(last) =>
        if id.ms < last.ms then false
        else if id.ms == last.ms && id.seqNo <= last.seqNo then false
        else true
  }

  /** The ID streamAdd settles on before it validates it. */
  function ChosenID(s: seq<Entry>, parsed: ID, now: nat): (r: ID)
    requires now < U64 && parsed.Valid()
    ensures r.Valid() && r.ms == parsed.ms
  {
    if parsed.seqNo == U64_MAX then ID(parsed.ms, GetNextSequence(s, parsed.ms, now)) else parsed
  }

  datatype Call = Call(id: string, fields: seq<string>, values: seq<string>, now: nat)

  function AddOutcome(s: seq<Entry>, c: Call): (r: AddResult)
    requires c.now < U64
  {
    match ParseID(c.id, c.now)
    case None => Unparseable
    case Some(parsed) =>
      var id := ChosenID(s, parsed, c.now);
      if IsValidNextID(s, id, c.now) then Added(GenerateID(id.ms, id.seqNo))
      else if id == ZERO then Rejected(ERR_ZERO)
      else Rejected(ERR_SMALL)
  }

  function Add(s: seq<Entry>, c: Call): (s': seq<Entry>)
    requires c.now < U64
    ensures s' == s || (|s'| == |s| + 1 && s'[..|s|] == s)
    ensures !AddOutcome(s, c).Added? ==> s' == s
  {
    var r := AddOutcome(s, c);
    if r.Added? then s + [Entry(r.id, c.fields, c.values)] else s
  }

  /** The accepted ID of a call prints in at most 31 characters. */
  predicate CallFits(s: seq<Entry>, c: Call)
    requires c.now < U64
  {
    AddOutcome(s, c).Added? ==> Fits(ChosenID(s, ParseID(c.id, c.now).value, c.now))
  }

  // ----- Strictly increasing IDs -----

  /** The ID a stored entry parses to, whatever the clock says. */
  function EntryID(e: Entry): Option<ID> {
    ParseID(e.id, 0)
  }

  predicate HasID(e: Entry) {
    e.id != "*" && EntryID(e).Some? && Less(ZERO, EntryID(e).value)
  }

  predicate Ordered(s: seq<Entry>) {
    && (forall i :: 0 <= i < |s| ==> HasID(s[i]))
    && (forall i, j :: 0 <= i < j < |s| ==> Less(EntryID(s[i]).value, EntryID(s[j]).value))
  }

  lemma EntryIgnoresClock(e: Entry, now: nat)
    requires e.id != "*" && now < U64
    ensures ParseID(e.id, now) == EntryID(e)
  {
  }

  /** One accepted add, whatever its length: the new tail ID is what the buffer kept of
      the chosen ID, and the stream stays ordered exactly when that is still above the
      old tail. */
  lemma AddKeepsOrderIff(s: seq<Entry>, c: Call)
    requires c.now < U64 && Ordered(s) && AddOutcome(s, c).Added?
    ensures var id := ChosenID(s, ParseID(c.id, c.now).value, c.now);
            && EntryID(Add(s, c)[|s|]) == Some(Stored(id))
            && (Ordered(Add(s, c)) <==>
                (s == [] || LastID(s, 0).value.ms < id.ms || LastID(s, 0).value.seqNo < Stored(id).seqNo))
  {
    var id := ChosenID(s, ParseID(c.id, c.now).value, c.now);
    ReparsedID(id, 0);
    GeneratedText(id);
    var s' := Add(s, c);
    assert IsDigit(s'[|s|].id[0]);
    StoredPositive(id);
    if s != [] {
      EntryIgnoresClock(s[|s| - 1], c.now);
      OrderedSnoc(s, s'[|s|]);
    }
  }

  lemma StoredPositive(id: ID)
    requires id.Valid() && Less(ZERO, id)
    ensures Less(ZERO, Stored(id))
  {
    if id.ms == 0 {
      assert |Dec(0)| == 1;
      U64Digits(id.seqNo);
    }
  }

  lemma OrderedSnoc(s: seq<Entry>, e: Entry)
    requires Ordered(s) && s != [] && HasID(e)
    ensures Ordered(s + [e]) <==> Less(EntryID(s[|s| - 1]).value, EntryID(e).value)
  {
    var t := s + [e];
    assert t[|s| - 1] == s[|s| - 1] && t[|s|] == e;
    if Less(EntryID(s[|s| - 1]).value, EntryID(e).value) {
      forall i, j | 0 <= i < j < |t| ensures Less(EntryID(t[i]).value, EntryID(t[j]).value) {
        assert t[i] == s[i];
        BelowNewTail(s, e, i);
        assert j < |s| ==> t[j] == s[j];
      }
    }
  }

  lemma BelowNewTail(s: seq<Entry>, e: Entry, i: nat)
    requires Ordered(s) && i < |s| && HasID(e)
    requires Less(EntryID(s[|s| - 1]).value, EntryID(e).value)
    ensures Less(EntryID(s[i]).value, EntryID(e).value)
  {
    LessTransitive(EntryID(s[i]).value, EntryID(s[|s| - 1]).value, EntryID(e).value);
  }

  lemma LessTransitive(a: ID, b: ID, c: ID)
    ensures (Less(a, b) || a == b) && Less(b, c) ==> Less(a, c)
  {
  }

  /** An add that fits keeps the stream ordered, and a call that is not accepted leaves
      the entries unchanged. */
  lemma AddKeepsOrder(s: seq<Entry>, c: Call)
    requires c.now < U64 && Ordered(s) && CallFits(s, c)
    ensures Ordered(Add(s, c))
  {
    if AddOutcome(s, c).Added? {
      AddKeepsOrderIff(s, c);
      if s != [] {
        EntryIgnoresClock(s[|s| - 1], c.now);
      }
    }
  }

  function RunAdds(s: seq<Entry>, calls: seq<Call>): seq<Entry>
    requires forall c :: c in calls ==> c.now < U64
    decreases |calls|
  {
    if calls == [] then s else RunAdds(Add(s, calls[0]), calls[1..])
  }

  predicate RunFits(s: seq<Entry>, calls: seq<Call>)
    requires forall c :: c in calls ==> c.now < U64
    decreases |calls|
  {
    calls != [] ==> CallFits(s, calls[0]) && RunFits(Add(s, calls[0]), calls[1..])
  }

  /** After every sequence of streamAdd calls whose accepted IDs fit, the IDs are strictly
      increasing and above 0-0, and earlier entries are still there. */
  lemma {:induction false} RunKeepsOrder(s: seq<Entry>, calls: seq<Call>)
    requires forall c :: c in calls ==> c.now < U64
    requires Ordered(s) && RunFits(s, calls)
    ensures Ordered(RunAdds(s, calls)) && s <= RunAdds(s, calls)
    decreases |calls|
  {
    if calls != [] {
      AddKeepsOrder(s, calls[0]);
      RunKeepsOrder(Add(s, calls[0]), calls[1..]);
    }
  }

  /** An automatic sequence number is the least valid one for its millisecond; when the
      tail already holds UINT64_MAX there is none, and the wrapped value is rejected. */
  lemma AutoSequenceIsLeast(s: seq<Entry>, ms: nat, now: nat, other: nat)
    requires now < U64 && ms < U64 && Ordered(s)
    ensures var q := GetNextSequence(s, ms, now);
            && (IsValidNextID(s, ID(ms, other), now) && other < U64 ==>
                  IsValidNextID(s, ID(ms, q), now) && q <= other)
            && (s != [] && LastID(s, 0) == Some(ID(ms, U64_MAX)) ==>
                  q == 0 && !IsValidNextID(s, ID(ms, q), now))
  {
    if s != [] {
      EntryIgnoresClock(s[|s| - 1], now);
    }
  }

  /** Whether a stream has a valid ID left in a millisecond. */
  predicate Room(s: seq<Entry>, ms: nat)
    requires Ordered(s)
  {
    s == [] || (var last := EntryID(s[|s| - 1]).value;
                last.ms < ms || (last.ms == ms && last.seqNo < U64_MAX))
  }

  /** "*" is accepted exactly when there is room at the clock reading, and the new entry
      keeps its milliseconds. */
  lemma StarOutcome(s: seq<Entry>, c: Call)
    requires Ordered(s) && c.id == "*" && c.now < U64
    ensures !AddOutcome(s, c).Unparseable?
    ensures AddOutcome(s, c).Added? <==> Room(s, c.now)
    ensures Room(s, c.now) ==> EntryID(Add(s, c)[|s|]).Some? && EntryID(Add(s, c)[|s|]).value.ms == c.now
  {
    if s != [] {
      EntryIgnoresClock(s[|s| - 1], c.now);
    }
    if AddOutcome(s, c).Added? {
      AddKeepsOrderIff(s, c);
    }
  }

  /** Adding with "*" at two clock readings gives the same stream if and only if the readings
      agree or the stream has room at neither. */
  lemma StarClockIff(s: seq<Entry>, c1: Call, c2: Call)
    requires Ordered(s) && c1.id == "*" && c1.now < U64 && c2.now < U64 && c2 == c1.(now := c2.now)
    ensures Add(s, c1) == Add(s, c2) <==> c1.now == c2.now || (!Room(s, c1.now) && !Room(s, c2.now))
  {
    StarOutcome(s, c1);
    StarOutcome(s, c2);
  }

  /** Without the length bound order is lost: two calls of streamAdd, both accepted, the
      first on a new stream, can store the same ID. */
  lemma TruncationBreaksOrder() returns (c1: Call, c2: Call)
    ensures c1.now < U64 && c2.now < U64
    ensures AddOutcome([], c1).Added? && Ordered(Add([], c1))
    ensures AddOutcome(Add([], c1), c2).Added? && !Ordered(Add(Add([], c1), c2))
    ensures EntryID(Add(Add([], c1), c2)[1]) == EntryID(Add([], c1)[0])
  {
    var id1, id2 := ID(10000000000000000000, 1000000000), ID(10000000000000000000, 10000000000);
    LengthsOfWitness();
    c1 := CallFor(id1);
    AddKeepsOrderIff([], c1);
    var s := Add([], c1);
    c2 := CallFor(id2);
    assert Stored(id2) == id1 by {
      assert DropDigits(id2.seqNo, 1) == DropDigits(id2.seqNo / 10, 0);
    }
    AddKeepsOrderIff(s, c2);
  }

  /** A call with an ID written out. */
  lemma CallFor(id: ID) returns (c: Call)
    requires id.Valid() && Less(ZERO, id) && id.seqNo != U64_MAX
    ensures c.now < U64 && ParseID(c.id, c.now) == Some(id)
    ensures forall s :: ChosenID(s, id, c.now) == id
    ensures AddOutcome([], c).Added?
  {
    c := Call(Dec(id.ms) + "-" + Dec(id.seqNo), [], [], 0);
    ParsePrintedID(id, 0);
  }

  lemma LengthsOfWitness()
    ensures |Dec(10000000000000000000)| == 20
    ensures |Dec(1000000000)| == 10 && |Dec(10000000000)| == 11
  {
    assert Pow10(5) == 100000;
    assert Pow10(9) == 1000000000;
    assert Pow10(10) == 10000000000;
    assert Pow10(11) == 100000000000;
    assert Pow10(15) == 1000000000000000;
    assert Pow10(19) == 10000000000000000000;
    assert Pow10(20) == 100000000000000000000;
    DecLength(10000000000000000000, 19);
    DecLength(10000000000000000000, 20);
    DecLength(1000000000, 9);
    DecLength(1000000000, 10);
    DecLength(10000000000, 10);
    DecLength(10000000000, 11);
  }

  // ----- streamRange and streamRead -----

  predicate Keeps(e: Entry, start: ID, end: ID, now: nat)
    requires now < U64
  {
    ParseID(e.id, now).Some? && IsIdInRange(ParseID(e.id, now).value, start, end)
  }

  predicate IsAfter(e: Entry, id: ID, now: nat)
    requires now < U64
  {
    ParseID(e.id, now).Some? && Compare(ParseID(e.id, now).value, id) > 0
  }

  function RangeScan(s: seq<Entry>, start: ID, end: ID, now: nat): seq<Entry>
    requires now < U64
  {
    if s == [] then []
    else (if Keeps(s[0], start, end, now) then [s[0]] else []) + RangeScan(s[1..], start, end, now)
  }

  function ReadScan(s: seq<Entry>, id: ID, now: nat): seq<Entry>
    requires now < U64
  {
    if s == [] then []
    else (if IsAfter(s[0], id, now) then [s[0]] else []) + ReadScan(s[1..], id, now)
  }

  function RangeStart(text: string, now: nat): Option<ID>
    requires now < U64
  {
    if text == "-" then Some(ZERO) else ParseID(text, now)
  }

  function RangeEnd(text: string, now: nat): Option<ID>
    requires now < U64
  {
    if text == "+" then Some(MAX) else ParseID(text, now)
  }

  /** streamRange: the copies in order; a bound that does not parse gives nothing. */
  function Range(s: seq<Entry>, start: string, end: string, now: nat): seq<Entry>
    requires now < U64
  {
    match (RangeStart(start, now), RangeEnd(end, now))
    case (Some(a), Some(b)) => RangeScan(s, a, b, now)
    case _ => []
  }

  function Read(s: seq<Entry>, id: string, now: nat): seq<Entry>
    requires now < U64
  {
    match ParseID(id, now)
    case Some(start) => ReadScan(s, start, now)
    case None => []
  }

  /** How many entries of an ordered stream have an ID at most (or below) a given one. */
  function CountUpTo(s: seq<Entry>, id: ID): (n: nat)
    ensures n <= |s|
  {
    if s == [] || !HasID(s[0]) || Less(id, EntryID(s[0]).value) then 0 else 1 + CountUpTo(s[1..], id)
  }

  function CountBelow(s: seq<Entry>, id: ID): (n: nat)
    ensures n <= |s|
  {
    if s == [] || !HasID(s[0]) || !Less(EntryID(s[0]).value, id) then 0 else 1 + CountBelow(s[1..], id)
  }

  lemma OrderedTail(s: seq<Entry>)
    requires Ordered(s) && s != []
    ensures Ordered(s[1..])
    ensures forall e :: e in s[1..] ==> HasID(e) && Less(EntryID(s[0]).value, EntryID(e).value)
  {
    forall e | e in s[1..] ensures HasID(e) && Less(EntryID(s[0]).value, EntryID(e).value) {
      var i :| 0 <= i < |s[1..]| && s[1..][i] == e;
      assert s[i + 1] == e;
    }
  }

  lemma {:induction false} ReadAllAbove(s: seq<Entry>, id: ID, now: nat)
    requires now < U64
    requires forall e :: e in s ==> HasID(e) && Less(id, EntryID(e).value)
    ensures ReadScan(s, id, now) == s
  {
    if s != [] {
      assert s[0] in s;
      EntryIgnoresClock(s[0], now);
      ReadAllAbove(s[1..], id, now);
    }
  }

  /** Reading after an ID returns the suffix of entries above it. */
  lemma {:induction false} ReadIsSuffix(s: seq<Entry>, id: ID, now: nat)
    requires now < U64 && Ordered(s)
    ensures ReadScan(s, id, now) == s[CountUpTo(s, id)..]
  {
    if s != [] {
      OrderedTail(s);
      EntryIgnoresClock(s[0], now);
      if Less(id, EntryID(s[0]).value) {
        forall e | e in s ensures HasID(e) && Less(id, EntryID(e).value) {
          assert e == s[0] || e in s[1..];
        }
        ReadAllAbove(s, id, now);
      } else {
        ReadIsSuffix(s[1..], id, now);
      }
    }
  }

  lemma {:induction false} RangeNoneAbove(s: seq<Entry>, start: ID, end: ID, now: nat)
    requires now < U64
    requires forall e :: e in s ==> HasID(e) && Less(end, EntryID(e).value)
    ensures RangeScan(s, start, end, now) == []
  {
    if s != [] {
      assert s[0] in s;
      EntryIgnoresClock(s[0], now);
      RangeNoneAbove(s[1..], start, end, now);
    }
  }

  ghost predicate IsSlice(r: seq<Entry>, s: seq<Entry>, lo: nat, hi: nat)
    requires hi <= |s|
  {
    r == if lo <= hi then s[lo..hi] else []
  }

  lemma SliceCons(r: seq<Entry>, s: seq<Entry>, lo: nat, hi: nat)
    requires s != [] && hi <= |s| - 1 && IsSlice(r, s[1..], lo, hi)
    ensures IsSlice(r, s, lo + 1, hi + 1)
    ensures lo == 0 ==> IsSlice([s[0]] + r, s, 0, hi + 1)
  {
  }

  lemma KeepsIff(e: Entry, start: ID, end: ID, now: nat)
    requires HasID(e) && now < U64
    ensures Keeps(e, start, end, now) <==> !Less(EntryID(e).value, start) && !Less(end, EntryID(e).value)
  {
    EntryIgnoresClock(e, now);
  }

  /** A range is the contiguous slice between its bounds: nothing inside is skipped,
      nothing outside is returned. */
  lemma {:induction false} RangeIsSlice(s: seq<Entry>, start: ID, end: ID, now: nat)
    requires now < U64 && Ordered(s)
    ensures IsSlice(RangeScan(s, start, end, now), s, CountBelow(s, start), CountUpTo(s, end))
  {
    if s != [] {
      KeepsIff(s[0], start, end, now);
      OrderedTail(s);
      if Less(end, EntryID(s[0]).value) {
        RangeNoneAbove(s[1..], start, end, now);
      } else {
        RangeIsSlice(s[1..], start, end, now);
        RangeCons(s, start, end, now);
      }
    }
  }

  lemma RangeCons(s: seq<Entry>, start: ID, end: ID, now: nat)
    requires now < U64 && s != [] && HasID(s[0]) && !Less(end, EntryID(s[0]).value)
    requires forall e :: e in s[1..] ==> HasID(e) && Less(EntryID(s[0]).value, EntryID(e).value)
    requires IsSlice(RangeScan(s[1..], start, end, now), s[1..], CountBelow(s[1..], start), CountUpTo(s[1..], end))
    ensures IsSlice(RangeScan(s, start, end, now), s, CountBelow(s, start), CountUpTo(s, end))
  {
    KeepsIff(s[0], start, end, now);
    if !Less(EntryID(s[0]).value, start) {
      NoneBelow(s[1..], start);
    }
    SliceCons(RangeScan(s[1..], start, end, now), s, CountBelow(s[1..], start), CountUpTo(s[1..], end));
  }

  lemma NoneBelow(s: seq<Entry>, start: ID)
    requires forall e :: e in s ==> HasID(e) && !Less(EntryID(e).value, start)
    ensures CountBelow(s, start) == 0
  {
  }

  lemma NoneBelowZero(s: seq<Entry>)
    ensures CountBelow(s, ZERO) == 0
  {
  }

  lemma ScanSplit(s: seq<Entry>, at: ID, now: nat, later: nat)
    requires now < U64 && later < U64 && Ordered(s)
    ensures RangeScan(s, ZERO, at, now) + ReadScan(s, at, later) == s
  {
    ReadIsSuffix(s, at, later);
    RangeIsSlice(s, ZERO, at, now);
    NoneBelowZero(s);
    var k := CountUpTo(s, at);
    assert s[0..k] + s[k..] == s;
  }

  /** Split law: for every ordered stream and every accepted ID other than "*", the range
      up to the ID followed by the read after it is the whole stream. */
  lemma SplitLaw(s: seq<Entry>, id: string, now: nat, later: nat)
    requires now < U64 && later < U64 && Ordered(s)
    requires id != "*" && ParseID(id, now).Some?
    ensures Range(s, "-", id, now) + Read(s, id, later) == s
  {
    assert id != "+" by { assert FirstDash("+") == 1; }
    ScanSplit(s, ParseID(id, now).value, now, later);
  }

  // ----- Reading with a cursor -----

  datatype Event = AddEvent(call: Call) | ReadEvent(now: nat) {
    function Clock(): nat {
      if AddEvent? then call.now else now
    }
  }

  /** A consumer that always reads after the last ID it received. */
  datatype Consumer = Consumer(stream: seq<Entry>, cursor: string, received: seq<Entry>)

  function Step(c: Consumer, e: Event): Consumer
    requires e.Clock() < U64
  {
    match e
    case AddEvent(call) => c.(stream := Add(c.stream, call))
    case ReadEvent(now) =>
      var got := Read(c.stream, c.cursor, now);
      if got == [] then c
      else c.(cursor := got[|got| - 1].id, received := c.received + got)
  }

  function Run(c: Consumer, events: seq<Event>): Consumer
    requires forall e :: e in events ==> e.Clock() < U64
    decreases |events|
  {
    if events == [] then c else Run(Step(c, events[0]), events[1..])
  }

  predicate EventsFit(c: Consumer, events: seq<Event>)
    requires forall e :: e in events ==> e.Clock() < U64
    decreases |events|
  {
    events != [] ==>
      assert events[0].Clock() < U64;
      && (events[0].AddEvent? ==> CallFits(c.stream, events[0].call))
      && EventsFit(Step(c, events[0]), events[1..])
  }

  /** What has been received followed by what is still unread after `cur` is everything
      above `at`; a cursor that has moved is not above the tail. */
  ghost predicate InStep(s: seq<Entry>, received: seq<Entry>, cur: ID, at: ID)
    requires Ordered(s)
  {
    && received + ReadScan(s, cur, 0) == ReadScan(s, at, 0)
    && (cur == at || (Less(at, cur) && s != [] && !Less(EntryID(s[|s| - 1]).value, cur)))
  }

  ghost predicate Tracking(c: Consumer, at: ID) {
    && Ordered(c.stream)
    && c.cursor != "*" && ParseID(c.cursor, 0).Some?
    && InStep(c.stream, c.received, ParseID(c.cursor, 0).value, at)
  }

  lemma {:induction false} ReadScanSnoc(s: seq<Entry>, e: Entry, id: ID)
    ensures ReadScan(s + [e], id, 0) == ReadScan(s, id, 0) + if IsAfter(e, id, 0) then [e] else []
  {
    if s == [] {
      assert s + [e] == [e];
    } else {
      assert (s + [e])[1..] == s[1..] + [e];
      ReadScanSnoc(s[1..], e, id);
    }
  }

  lemma {:induction false} ReadScanClock(s: seq<Entry>, id: ID, now: nat)
    requires now < U64 && forall e :: e in s ==> HasID(e)
    ensures ReadScan(s, id, now) == ReadScan(s, id, 0)
  {
    if s != [] {
      assert s[0] in s;
      EntryIgnoresClock(s[0], now);
      ReadScanClock(s[1..], id, now);
    }
  }

  lemma {:induction false} CountAll(s: seq<Entry>, id: ID)
    requires Ordered(s) && (s == [] || !Less(id, EntryID(s[|s| - 1]).value))
    ensures CountUpTo(s, id) == |s|
  {
    if s != [] {
      OrderedTail(s);
      if |s| > 1 {
        assert s[1..][|s| - 2] == s[|s| - 1];
      }
      CountAll(s[1..], id);
    }
  }

  lemma AddStaysInStep(s: seq<Entry>, e: Entry, received: seq<Entry>, cur: ID, at: ID)
    requires Ordered(s) && Ordered(s + [e]) && InStep(s, received, cur, at)
    ensures InStep(s + [e], received, cur, at)
  {
    ReadScanSnoc(s, e, cur);
    ReadScanSnoc(s, e, at);
    if cur != at {
      assert (s + [e])[|s| - 1] == s[|s| - 1] && (s + [e])[|s|] == e;
      LessTransitive(cur, EntryID(s[|s| - 1]).value, EntryID(e).value);
      assert IsAfter(e, cur, 0) && IsAfter(e, at, 0);
      assert received + (ReadScan(s, cur, 0) + [e]) == received + ReadScan(s, cur, 0) + [e];
    }
  }

  lemma AddTracks(c: Consumer, at: ID, call: Call)
    requires Tracking(c, at) && call.now < U64 && CallFits(c.stream, call)
    ensures Tracking(Step(c, AddEvent(call)), at)
  {
    var s, s' := c.stream, Add(c.stream, call);
    AddKeepsOrder(s, call);
    if s' != s {
      assert s' == s + [s'[|s|]];
      AddStaysInStep(s, s'[|s|], c.received, ParseID(c.cursor, 0).value, at);
    }
  }

  lemma ReadStaysInStep(s: seq<Entry>, received: seq<Entry>, cur: ID, at: ID)
    requires Ordered(s) && InStep(s, received, cur, at) && ReadScan(s, cur, 0) != []
    ensures s != [] && var got := ReadScan(s, cur, 0);
            && got[|got| - 1] == s[|s| - 1]
            && InStep(s, received + got, EntryID(s[|s| - 1]).value, at)
  {
    var got := ReadScan(s, cur, 0);
    LastRead(s, cur);
    var last := s[|s| - 1];
    NewCursor(s, cur, last);
    LessTransitive(at, cur, EntryID(last).value);
    assert received + got + [] == received + got;
  }

  lemma LastRead(s: seq<Entry>, cur: ID)
    requires Ordered(s) && ReadScan(s, cur, 0) != []
    ensures s != [] && var got := ReadScan(s, cur, 0); got[|got| - 1] == s[|s| - 1]
    ensures CountUpTo(s, cur) < |s|
  {
    ReadIsSuffix(s, cur, 0);
  }

  lemma ReadTracks(c: Consumer, at: ID, now: nat)
    requires Tracking(c, at) && now < U64
    ensures Tracking(Step(c, ReadEvent(now)), at)
    ensures Step(c, ReadEvent(now)).received == ReadScan(c.stream, at, 0)
  {
    var s, cur := c.stream, ParseID(c.cursor, 0).value;
    var got := ReadScan(s, cur, 0);
    assert Read(s, c.cursor, now) == got by { ReadScanClock(s, cur, now); }
    if got == [] {
      assert c.received + got == c.received;
    } else {
      ReadStaysInStep(s, c.received, cur, at);
    }
  }

  /** The tail becomes the cursor: nothing is left unread and the cursor has moved up. */
  lemma NewCursor(s: seq<Entry>, cur: ID, last: Entry)
    requires Ordered(s) && s != [] && last == s[|s| - 1] && CountUpTo(s, cur) < |s|
    ensures ReadScan(s, EntryID(last).value, 0) == [] && Less(cur, EntryID(last).value)
  {
    CountAll(s, EntryID(last).value);
    ReadIsSuffix(s, EntryID(last).value, 0);
    if !Less(cur, EntryID(last).value) {
      CountAll(s, cur);
    }
  }

  lemma {:induction false} RunTracks(c: Consumer, at: ID, events: seq<Event>)
    requires forall e :: e in events ==> e.Clock() < U64
    requires Tracking(c, at) && EventsFit(c, events)
    ensures Tracking(Run(c, events), at)
    ensures c.stream <= Run(c, events).stream
    decreases |events|
  {
    if events != [] {
      assert events[0] in events;
      match events[0] {
        case AddEvent(call) => AddTracks(c, at, call);
        case ReadEvent(now) => ReadTracks(c, at, now);
      }
      RunTracks(Step(c, events[0]), at, events[1..]);
    }
  }

  /** Exactly-once reading: from any accepted cursor other than "*", over any interleaving
      of adds and reads, what was received is a prefix of the entries above the starting
      cursor, and one more read completes it: every later entry once and in order. */
  lemma ExactlyOnce(s: seq<Entry>, cursor: string, events: seq<Event>, now: nat)
    requires forall e :: e in events ==> e.Clock() < U64
    requires Ordered(s) && cursor != "*" && ParseID(cursor, 0).Some? && now < U64
    requires EventsFit(Consumer(s, cursor, []), events)
    ensures var c := Run(Consumer(s, cursor, []), events);
            var all := ReadScan(c.stream, ParseID(cursor, 0).value, 0);
            && c.received <= all
            && Step(c, ReadEvent(now)).received == all
  {
    var c0, at := Consumer(s, cursor, []), ParseID(cursor, 0).value;
    InStepAtStart(s, at);
    RunTracks(c0, at, events);
    ReadTracks(Run(c0, events), at, now);
  }

  /** The cursor "$" resolves to: the tail's ID, or 0-0 when there is no entry. */
  function Dollar(s: seq<Entry>): string {
    if s == [] then "0-0" else s[|s| - 1].id
  }

  lemma ZeroParses()
    ensures ParseID("0-0", 0) == Some(ZERO)
  {
    assert Dec(0) + "-" + Dec(0) == "0-0";
    ParsePrintedID(ZERO, 0);
  }

  lemma DollarParses(s: seq<Entry>)
    requires Ordered(s)
    ensures Dollar(s) != "*" && ParseID(Dollar(s), 0).Some?
    ensures CountUpTo(s, ParseID(Dollar(s), 0).value) == |s|
    ensures s == [] ==> ParseID(Dollar(s), 0) == Some(ZERO)
  {
    if s == [] {
      ZeroParses();
    } else {
      CountAll(s, EntryID(s[|s| - 1]).value);
    }
  }

  lemma {:induction false} CountPrefix(s: seq<Entry>, t: seq<Entry>, id: ID)
    requires Ordered(t) && s <= t
    requires CountUpTo(s, id) == |s|
    requires |s| < |t| ==> Less(id, EntryID(t[|s|]).value)
    ensures CountUpTo(t, id) == |s|
  {
    if t != [] && s != [] {
      OrderedTail(t);
      CountPrefix(s[1..], t[1..], id);
    }
  }

  /** A consumer that starts from "$" sees exactly the entries added since. */
  lemma DollarSeesNewEntries(s: seq<Entry>, events: seq<Event>, now: nat)
    requires forall e :: e in events ==> e.Clock() < U64
    requires Ordered(s) && now < U64
    requires EventsFit(Consumer(s, Dollar(s), []), events)
    ensures var c := Run(Consumer(s, Dollar(s), []), events);
            && s <= c.stream
            && Step(c, ReadEvent(now)).received == c.stream[|s|..]
  {
    DollarParses(s);
    ExactlyOnce(s, Dollar(s), events, now);
    ghost var at := ParseID(Dollar(s), 0).value;
    InStepAtStart(s, at);
    RunTracks(Consumer(s, Dollar(s), []), at, events);
    SuffixFromPrefix(s, Run(Consumer(s, Dollar(s), []), events).stream, at);
  }

  lemma InStepAtStart(s: seq<Entry>, at: ID)
    requires Ordered(s)
    ensures InStep(s, [], at, at)
  {
    assert [] + ReadScan(s, at, 0) == ReadScan(s, at, 0);
  }

  lemma SuffixFromPrefix(s: seq<Entry>, t: seq<Entry>, at: ID)
    requires Ordered(t) && s <= t && CountUpTo(s, at) == |s|
    requires s == [] ==> at == ZERO
    requires s != [] ==> EntryID(s[|s| - 1]) == Some(at)
    ensures ReadScan(t, at, 0) == t[|s|..]
  {
    CountPrefix(s, t, at);
    ReadIsSuffix(t, at, 0);
  }
}
