/** What streamAdd does with each way of writing an ID, and what the bounds of XRANGE mean,
    stated on the order of IDs alone (app/stream.c:105-139, app/stream.c:189-335). */
module StreamIDs {
  import opened Options
  import opened CText
  import N = Numerals
  import opened Streams

  // ----- Which ID is next -----

  /** Whether an ID is above 0-0 and above everything in an ordered stream. */
  predicate Above(s: seq<Entry>, id: ID)
    requires Ordered(s)
  {
    Less(ZERO, id) && (s != [] ==> Less(EntryID(s[|s| - 1]).value, id))
  }

  /** The least sequence number that is still free in a millisecond. */
  ghost predicate LeastFree(s: seq<Entry>, ms: nat, q: nat)
    requires Ordered(s)
  {
    q < U64 && Above(s, ID(ms, q)) && forall q' :: 0 <= q' < q ==> !Above(s, ID(ms, q'))
  }

  lemma FreeIffRoom(s: seq<Entry>, ms: nat) returns (q: nat)
    requires Ordered(s) && ms < U64
    ensures Room(s, ms) ==> LeastFree(s, ms, q)
    ensures !Room(s, ms) ==> forall q' :: 0 <= q' < U64 ==> !Above(s, ID(ms, q'))
    ensures q == if s != [] && EntryID(s[|s| - 1]).value.ms == ms then EntryID(s[|s| - 1]).value.seqNo + 1
                 else if s == [] && ms == 0 then 1 else 0
  {
    q := if s != [] && EntryID(s[|s| - 1]).value.ms == ms then EntryID(s[|s| - 1]).value.seqNo + 1
         else if s == [] && ms == 0 then 1 else 0;
    if s != [] {
      assert HasID(s[|s| - 1]);
    }
  }

  /** The outcome of a call that settles on an ID. */
  lemma OutcomeOf(s: seq<Entry>, c: Call, parsed: ID, id: ID)
    requires Ordered(s) && c.now < U64 && ParseID(c.id, c.now) == Some(parsed) && ChosenID(s, parsed, c.now) == id
    ensures AddOutcome(s, c) == if Above(s, id) then Added(GenerateID(id.ms, id.seqNo))
                                else Rejected(if id == ZERO then ERR_ZERO else ERR_SMALL)
  {
    if s != [] {
      EntryIgnoresClock(s[|s| - 1], c.now);
    }
  }

  lemma NextIsLeast(s: seq<Entry>, ms: nat, now: nat) returns (q: nat)
    requires Ordered(s) && ms < U64 && now < U64
    ensures Room(s, ms) ==> LeastFree(s, ms, q) && GetNextSequence(s, ms, now) == q
    ensures !Room(s, ms) ==> !Above(s, ID(ms, GetNextSequence(s, ms, now)))
  {
    q := FreeIffRoom(s, ms);
    if s != [] {
      EntryIgnoresClock(s[|s| - 1], now);
    }
  }

  /** What an accepted ID adds. */
  lemma AddedEntry(s: seq<Entry>, c: Call, id: ID)
    requires c.now < U64 && id.Valid() && AddOutcome(s, c) == Added(GenerateID(id.ms, id.seqNo))
    ensures Add(s, c) == s + [Entry(GenerateID(id.ms, id.seqNo), c.fields, c.values)]
    ensures EntryID(Add(s, c)[|s|]) == Some(Stored(id))
  {
    ReparsedID(id, 0);
  }

  /** An ID with an automatic sequence number in a given millisecond. */
  lemma AutoOutcome(s: seq<Entry>, c: Call, ms: nat) returns (q: nat)
    requires Ordered(s) && c.now < U64 && ms < U64 && ParseID(c.id, c.now) == Some(ID(ms, U64_MAX))
    ensures AddOutcome(s, c).Added? <==> Room(s, ms)
    ensures Room(s, ms) ==>
              && LeastFree(s, ms, q)
              && AddOutcome(s, c) == Added(GenerateID(ms, q))
              && Add(s, c) == s + [Entry(GenerateID(ms, q), c.fields, c.values)]
              && EntryID(Add(s, c)[|s|]) == Some(Stored(ID(ms, q)))
  {
    q := NextIsLeast(s, ms, c.now);
    OutcomeOf(s, c, ID(ms, U64_MAX), ID(ms, GetNextSequence(s, ms, c.now)));
    if Room(s, ms) {
      AddedEntry(s, c, ID(ms, q));
    }
  }

  // ----- The four ways of writing an ID -----

  lemma DashAfterDigits(ms: nat, rest: string)
    ensures FirstDash(Dec(ms) + "-" + rest) == |Dec(ms)|
  {
    assert '-' !in Dec(ms);
    FirstDashAfter(Dec(ms), rest);
  }

  lemma AutoText(ms: nat, now: nat)
    requires ms < U64 && now < U64
    ensures ParseID(Dec(ms) + "-*", now) == Some(ID(ms, U64_MAX))
  {
    var id := Dec(ms) + "-*";
    assert id == Dec(ms) + "-" + "*";
    DashAfterDigits(ms, "*");
    N.U64OfDec(ms, "-*");
    assert id[|Dec(ms)| + 1] == '*';
  }

  /** "ms-*": accepted exactly when the stream has room in that millisecond, and then the new
      entry takes the least free sequence number, as far as the print buffer keeps it. */
  lemma AddAuto(s: seq<Entry>, c: Call, ms: nat) returns (q: nat)
    requires Ordered(s) && c.now < U64 && ms < U64 && c.id == Dec(ms) + "-*"
    ensures AddOutcome(s, c).Added? <==> Room(s, ms)
    ensures Room(s, ms) ==>
              && LeastFree(s, ms, q)
              && AddOutcome(s, c) == Added(GenerateID(ms, q))
              && Add(s, c) == s + [Entry(GenerateID(ms, q), c.fields, c.values)]
              && EntryID(Add(s, c)[|s|]) == Some(Stored(ID(ms, q)))
  {
    AutoText(ms, c.now);
    q := AutoOutcome(s, c, ms);
  }

  /** "*": the same in the millisecond that the clock reads. */
  lemma AddStar(s: seq<Entry>, c: Call) returns (q: nat)
    requires Ordered(s) && c.now < U64 && c.id == "*"
    ensures AddOutcome(s, c).Added? <==> Room(s, c.now)
    ensures Room(s, c.now) ==>
              && LeastFree(s, c.now, q)
              && AddOutcome(s, c) == Added(GenerateID(c.now, q))
              && Add(s, c) == s + [Entry(GenerateID(c.now, q), c.fields, c.values)]
              && EntryID(Add(s, c)[|s|]) == Some(Stored(ID(c.now, q)))
  {
    q := AutoOutcome(s, c, c.now);
  }

  /** "ms-seq", except for the sequence number that stands for "automatic": accepted exactly
      when it is above 0-0 and above the tail; 0-0 has an error of its own. */
  lemma AddExplicit(s: seq<Entry>, c: Call, id: ID)
    requires Ordered(s) && c.now < U64 && id.Valid() && id.seqNo != U64_MAX
    requires c.id == Dec(id.ms) + "-" + Dec(id.seqNo)
    ensures AddOutcome(s, c) == if Above(s, id) then Added(GenerateID(id.ms, id.seqNo))
                                else Rejected(if id == ZERO then ERR_ZERO else ERR_SMALL)
    ensures Above(s, id) ==> EntryID(Add(s, c)[|s|]) == Some(Stored(id))
  {
    ParsePrintedID(id, c.now);
    OutcomeOf(s, c, id, id);
    if Above(s, id) {
      AddedEntry(s, c, id);
    }
  }

  /** A text without a dash, or with one in front, is no ID, unless it is "*". */
  lemma AddUnparseable(s: seq<Entry>, c: Call)
    requires c.now < U64 && c.id != "*" && ('-' !in c.id || c.id[0] == '-')
    ensures AddOutcome(s, c) == Unparseable && Add(s, c) == s
  {
  }

  // ----- Bounds -----

  /** The entries whose IDs lie between two IDs, both included. */
  function Between(s: seq<Entry>, a: ID, b: ID): seq<Entry>
    requires Ordered(s)
    decreases |s|
  {
    if s == [] then []
    else
      OrderedTail(s);
      var id := EntryID(s[0]).value;
      (if (a == id || Less(a, id)) && (id == b || Less(id, b)) then [s[0]] else []) + Between(s[1..], a, b)
  }

  lemma {:induction false} ScanIsBetween(s: seq<Entry>, a: ID, b: ID, now: nat)
    requires Ordered(s) && now < U64
    ensures RangeScan(s, a, b, now) == Between(s, a, b)
    decreases |s|
  {
    if s != [] {
      OrderedTail(s);
      EntryIgnoresClock(s[0], now);
      RangeIsCompare(EntryID(s[0]).value, a, b);
      ScanIsBetween(s[1..], a, b, now);
    }
  }

  /** A bound written out as "ms-seq". */
  function Bound(id: ID): string {
    Dec(id.ms) + "-" + Dec(id.seqNo)
  }

  /** XRANGE between two bounds that are written out, or open, returns exactly the entries
      between them. */
  lemma RangeBetween(s: seq<Entry>, a: ID, b: ID, now: nat)
    requires Ordered(s) && now < U64 && a.Valid() && b.Valid()
    ensures Range(s, Bound(a), Bound(b), now) == Between(s, a, b)
    ensures Range(s, "-", Bound(b), now) == Between(s, ZERO, b)
    ensures Range(s, Bound(a), "+", now) == Between(s, a, MAX)
    ensures Range(s, "-", "+", now) == Between(s, ZERO, MAX)
  {
    ParsePrintedID(a, now);
    ParsePrintedID(b, now);
    ScanIsBetween(s, a, b, now);
    ScanIsBetween(s, ZERO, b, now);
    ScanIsBetween(s, a, MAX, now);
    ScanIsBetween(s, ZERO, MAX, now);
    assert Bound(a) != "-" && Bound(b) != "+" by {
      assert IsDigit(Bound(a)[0]) && IsDigit(Bound(b)[0]);
    }
  }

  lemma {:induction false} BetweenWithin(s: seq<Entry>, a: ID, b: ID)
    requires Ordered(s)
    ensures |Between(s, a, b)| <= |s| && forall e :: e in Between(s, a, b) ==> e in s
    decreases |s|
  {
    if s != [] {
      OrderedTail(s);
      BetweenWithin(s[1..], a, b);
    }
  }

  /** Everything lies between the open bounds. */
  lemma {:induction false} AllBetween(s: seq<Entry>)
    requires Ordered(s)
    ensures Between(s, ZERO, MAX) == s
    decreases |s|
  {
    if s != [] {
      OrderedTail(s);
      AllBetween(s[1..]);
      assert HasID(s[0]) && EntryID(s[0]).value.Valid();
      assert s == [s[0]] + s[1..];
    }
  }

  // ----- The reasons streamAdd gives -----

  lemma ReasonTexts()
    ensures ERR_ZERO == "-" + ("ERR The ID specified in " + "XADD must be greater than 0-0")
    ensures ERR_SMALL == "-" + ("ERR The ID specified in " + ("XADD is equal or smaller than " + "the target stream top item"))
  {
  }
}
