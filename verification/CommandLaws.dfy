/** What the commands mean to a client: what SET, INCR and XADD write is what GET and
    XRANGE read (app/command.c:19-166, app/command.c:306-345).

    Where a contract says `P(..) == true` it hands P on as one fact: the verifier then does
    not unfold it into its conjuncts at every call. */
module CommandLaws {
  import opened Options
  import opened CText
  import opened Store
  import SR = StoreRefinement
  import S = Streams
  import opened Commands

  // ----- SET and GET -----

  /** Whether a value that SET writes is readable: with PX until its expiry, without PX
      unless the key still holds an older expiry that has passed. */
  predicate Readable(m: Model, key: string, px: int, write: Clock, now: int) {
    if px != 0 then now < write.ms + px
    else !(key in m && m[key].expiry != 0 && m[key].expiry <= now)
  }

  lemma Written(st: StoreState, key: string, data: string) returns (st': StoreState, m: Model, m': Model)
    requires WellFormed(st)
    ensures m == Abs(st.table) && st' == Set(st, key, data) && WellFormed(st') == true
    ensures m' == Abs(st'.table) && m' == SR.MSet(m, key, data)
  {
    m, st' := Abs(st.table), Set(st, key, data);
    m' := Abs(st'.table);
    SR.SetRefines(st, key, data);
  }

  lemma Expires(st: StoreState, m: Model, key: string, expiry: int) returns (st': StoreState, m': Model)
    requires WellFormed(st) && m == Abs(st.table)
    ensures st' == SetExpiry(st, key, expiry) && WellFormed(st') == true
    ensures m' == Abs(st'.table) && m' == SR.MExpire(m, key, expiry)
  {
    st' := SetExpiry(st, key, expiry);
    m' := Abs(st'.table);
    SR.SetExpiryRefines(st, key, expiry);
  }

  /** The map after a SET command. */
  function MSetStore(m: Model, key: string, data: string, px: int, clock: Clock): Model {
    if px == 0 then SR.MSet(m, key, data) else SR.MExpire(SR.MSet(m, key, data), key, clock.ms + px)
  }

  lemma SetStorePx(st: StoreState, key: string, data: string, px: int, clock: Clock)
    requires |st.table| > 0 && px != 0
    ensures SetStore(st, key, data, px, clock) == SetExpiry(Set(st, key, data), key, clock.ms + px)
  {
  }

  lemma MSetStorePx(m: Model, m1: Model, m2: Model, key: string, data: string, px: int, clock: Clock)
    requires px != 0 && m1 == SR.MSet(m, key, data) && m2 == SR.MExpire(m1, key, clock.ms + px)
    ensures m2 == MSetStore(m, key, data, px, clock)
  {
  }

  lemma SetStoreMapPx(st: StoreState, key: string, data: string, px: int, clock: Clock)
    returns (written: StoreState, st': StoreState, m: Model, m': Model)
    requires WellFormed(st) && px != 0
    ensures written == Set(st, key, data) && st' == SetExpiry(written, key, clock.ms + px)
    ensures WellFormed(st') == true && m == Abs(st.table) && m' == Abs(st'.table)
    ensures m' == MSetStore(m, key, data, px, clock)
  {
    var m1;
    written, m, m1 := Written(st, key, data);
    st', m' := Expires(written, m1, key, clock.ms + px);
    MSetStorePx(m, m1, m', key, data, px, clock);
  }

  /** SET acts on the map as MSetStore. */
  lemma SetStoreMap(st: StoreState, key: string, data: string, px: int, clock: Clock)
    requires WellFormed(st)
    ensures WellFormed(SetStore(st, key, data, px, clock)) == true
    ensures Abs(SetStore(st, key, data, px, clock).table) == MSetStore(Abs(st.table), key, data, px, clock)
  {
    if px == 0 {
      SR.SetRefines(st, key, data);
    } else {
      var written, st', m, m' := SetStoreMapPx(st, key, data, px, clock);
      SetStorePx(st, key, data, px, clock);
    }
  }

  lemma MapSetThenGet(m: Model, key: string, data: string, px: int, write: Clock, now: int, other: string)
    requires px >= 0
    ensures SR.MGet(MSetStore(m, key, data, px, write), key, now) == Some(data) <==> Readable(m, key, px, write, now)
    ensures other != key ==> SR.MGet(MSetStore(m, key, data, px, write), other, now) == SR.MGet(m, other, now)
  {
  }

  /** GET after SET gives the value written exactly while it is readable, and no other key
      is affected. */
  lemma SetThenGet(st: StoreState, key: string, data: string, px: int, write: Clock, now: int, other: string)
    requires WellFormed(st) && px >= 0
    ensures Get(SetStore(st, key, data, px, write), key, now) == Some(data)
       <==> Readable(Abs(st.table), key, px, write, now)
    ensures other != key ==> Get(SetStore(st, key, data, px, write), other, now) == Get(st, other, now)
  {
    var st' := SetStore(st, key, data, px, write);
    SetStoreMap(st, key, data, px, write);
    MapSetThenGet(Abs(st.table), key, data, px, write, now, other);
    SR.ReadsRefine(st, other, now);
    SR.ReadsRefine(st', key, now);
    SR.ReadsRefine(st', other, now);
  }

  // ----- INCR -----

  /** The number a key counts from, 0 when it is absent or not a string; the key does not
      expire. */
  predicate CountsFrom(m: Model, key: string, n: int) {
    && (key in m ==> m[key].expiry == 0)
    && if key in m && m[key].value.Str?
       then ReadsAsNumber(m[key].value.data) && StrToI64(m[key].value.data) == n
       else n == 0
  }

  lemma NumberReadsBack(m: Model, key: string, n: int)
    requires -I64_MAX - 1 <= n <= I64_MAX && (key in m ==> m[key].expiry == 0)
    ensures CountsFrom(SR.MSet(m, key, DecSigned(n)), key, n)
  {
    DecSignedRoundTrip(n);
  }

  function IncrReply(n: int): Reply {
    Text(":" + DecSigned(n) + CRLF)
  }

  lemma FirstReply()
    ensures DecSigned(1) == "1" && IncrReply(1) == Text(":1\r\n")
  {
    assert DecSigned(1) == "1";
    assert ":" + "1" + CRLF == ":1\r\n";
  }

  lemma IncrEffect(st: StoreState, key: string, cmd: Command, clock: Clock, was: Option<string>, n: int)
    requires |st.table| > 0 && |cmd| >= 2 && key == CStr(cmd[1]) && was == Get(st, key, clock.ms)
    requires if was.Some? then ReadsAsNumber(was.value) && StrToI64(was.value) == n else n == 0
    requires n < I64_MAX
    ensures HandleIncr(st, cmd, clock) == Ran(Set(st, key, DecSigned(n + 1)), IncrReply(n + 1))
  {
    FirstReply();
  }

  /** One INCR of a key that does not expire answers and stores the next number. */
  lemma IncrStep(st: StoreState, cmd: Command, clock: Clock, n: int)
    requires WellFormed(st) && |cmd| >= 2 && CountsFrom(Abs(st.table), CStr(cmd[1]), n)
    requires -I64_MAX - 1 <= n < I64_MAX
    ensures HandleIncr(st, cmd, clock) == Ran(Set(st, CStr(cmd[1]), DecSigned(n + 1)), IncrReply(n + 1))
  {
    var key := CStr(cmd[1]);
    SR.ReadsRefine(st, key, clock.ms);
    IncrEffect(st, key, cmd, clock, Get(st, key, clock.ms), n);
  }

  /** The maps differ at most at one key. */
  predicate OnlyKey(m: Model, m': Model, key: string) {
    m - {key} == m' - {key}
  }

  lemma OnlyKeyTrans(m: Model, mid: Model, m': Model, key: string)
    requires OnlyKey(m, mid, key) == true && OnlyKey(mid, m', key) == true
    ensures OnlyKey(m, m', key)
  {
  }

  lemma IncrOnMap(m: Model, m': Model, key: string, n: int)
    requires CountsFrom(m, key, n) && -I64_MAX - 1 <= n < I64_MAX && m' == SR.MSet(m, key, DecSigned(n + 1))
    ensures CountsFrom(m', key, n + 1) && OnlyKey(m, m', key)
  {
    NumberReadsBack(m, key, n + 1);
  }

  /** The same step on the map: the key counts from the next number, no other key changes. */
  lemma IncrMap(st: StoreState, key: string, n: int) returns (st': StoreState, m: Model, m': Model)
    requires WellFormed(st) && CountsFrom(Abs(st.table), key, n) && -I64_MAX - 1 <= n < I64_MAX
    ensures st' == Set(st, key, DecSigned(n + 1)) && WellFormed(st') == true
    ensures m == Abs(st.table) && m' == Abs(st'.table)
    ensures CountsFrom(m', key, n + 1) == true && OnlyKey(m, m', key) == true
  {
    st', m, m' := Written(st, key, DecSigned(n + 1));
    IncrOnMap(m, m', key, n);
  }

  /** A run of INCRs of one key, one per clock reading, ending in a store and a reply. */
  ghost predicate Incrs(st: StoreState, cmd: Command, clocks: seq<Clock>, last: StoreState, reply: Reply)
    requires |cmd| >= 2
    decreases |clocks|
  {
    && clocks != [] && |st.table| > 0
    && match HandleIncr(st, cmd, clocks[0])
       case Crash => false
       case Ran(st', reply') =>
         if |clocks| == 1 then last == st' && reply == reply' else Incrs(st', cmd, clocks[1..], last, reply)
  }

  lemma IncrsOne(st: StoreState, cmd: Command, clocks: seq<Clock>, last: StoreState, n: int, sum: int)
    requires |st.table| > 0 && |cmd| >= 2 && |clocks| == 1 && n == sum
    requires HandleIncr(st, cmd, clocks[0]) == Ran(last, IncrReply(n))
    ensures Incrs(st, cmd, clocks, last, IncrReply(sum))
  {
  }

  lemma IncrsCons(st: StoreState, cmd: Command, clocks: seq<Clock>, st': StoreState, r: Reply, last: StoreState, reply: Reply)
    requires |st.table| > 0 && |cmd| >= 2 && |clocks| > 1 && HandleIncr(st, cmd, clocks[0]) == Ran(st', r)
    requires Incrs(st', cmd, clocks[1..], last, reply) == true
    ensures Incrs(st, cmd, clocks, last, reply)
  {
  }

  lemma IncrOnce(st: StoreState, cmd: Command, clock: Clock, n: int)
    returns (st': StoreState, m: Model, m': Model)
    requires WellFormed(st) && |cmd| >= 2 && CountsFrom(Abs(st.table), CStr(cmd[1]), n)
    requires -I64_MAX - 1 <= n < I64_MAX
    ensures HandleIncr(st, cmd, clock) == Ran(st', IncrReply(n + 1)) && WellFormed(st') == true
    ensures m == Abs(st.table) && m' == Abs(st'.table)
    ensures CountsFrom(m', CStr(cmd[1]), n + 1) == true && OnlyKey(m, m', CStr(cmd[1])) == true
  {
    IncrStep(st, cmd, clock, n);
    st', m, m' := IncrMap(st, CStr(cmd[1]), n);
  }

  lemma IncrLast(st: StoreState, cmd: Command, clocks: seq<Clock>, n: int, sum: int)
    returns (last: StoreState, m: Model, m': Model)
    requires WellFormed(st) && |cmd| >= 2 && CountsFrom(Abs(st.table), CStr(cmd[1]), n)
    requires |clocks| == 1 && -I64_MAX - 1 <= n && sum == n + 1 <= I64_MAX
    ensures Incrs(st, cmd, clocks, last, IncrReply(sum)) == true
    ensures WellFormed(last) == true && m == Abs(st.table) && m' == Abs(last.table)
    ensures CountsFrom(m', CStr(cmd[1]), sum) == true && OnlyKey(m, m', CStr(cmd[1])) == true
  {
    last, m, m' := IncrOnce(st, cmd, clocks[0], n);
    IncrsOne(st, cmd, clocks, last, n + 1, sum);
  }

  /** INCR any number of times in a row adds that number, up to the top of the 64-bit
      range, and touches no other key. */
  lemma {:induction false} IncrCounts(st: StoreState, cmd: Command, clocks: seq<Clock>, n: int, sum: int)
    returns (last: StoreState, m: Model, m': Model)
    requires WellFormed(st) && |cmd| >= 2 && CountsFrom(Abs(st.table), CStr(cmd[1]), n)
    requires clocks != [] && -I64_MAX - 1 <= n && sum == n + |clocks| <= I64_MAX
    ensures Incrs(st, cmd, clocks, last, IncrReply(sum)) == true
    ensures WellFormed(last) == true && m == Abs(st.table) && m' == Abs(last.table)
    ensures CountsFrom(m', CStr(cmd[1]), sum) == true && OnlyKey(m, m', CStr(cmd[1])) == true
    decreases |clocks|
  {
    if |clocks| == 1 {
      last, m, m' := IncrLast(st, cmd, clocks, n, sum);
    } else {
      var st', mid;
      st', m, mid := IncrOnce(st, cmd, clocks[0], n);
      last, mid, m' := IncrCounts(st', cmd, clocks[1..], n + 1, sum);
      OnlyKeyTrans(m, mid, m', CStr(cmd[1]));
      IncrsCons(st, cmd, clocks, st', IncrReply(n + 1), last, IncrReply(sum));
    }
  }

  // ----- XADD and XRANGE -----

  lemma {:induction false} CountAllBelowMax(s: seq<S.Entry>)
    requires S.Ordered(s)
    ensures S.CountUpTo(s, S.MAX) == |s|
  {
    if s != [] {
      S.OrderedTail(s);
      CountAllBelowMax(s[1..]);
    }
  }

  /** XRANGE key - + is the whole of an ordered stream. */
  lemma FullRange(s: seq<S.Entry>, now: nat)
    requires S.Ordered(s) && now < U64
    ensures S.Range(s, "-", "+", now) == s
  {
    CountAllBelowMax(s);
    S.NoneBelowZero(s);
    S.RangeIsSlice(s, S.ZERO, S.MAX, now);
  }

  /** The stream under a key, empty when the key is absent. */
  ghost function StreamUnder(st: StoreState, key: string): Option<seq<S.Entry>>
    requires |st.table| > 0
  {
    if key !in Abs(st.table) then Some([]) else SR.MStream(Abs(st.table), key)
  }

  /** After XADD an XRANGE over everything gives the entries there were and, if the ID was
      accepted, the new entry last, with the command's fields and values and the ID in the
      reply; a rejected XADD on an absent key leaves an empty stream behind. */
  lemma XaddThenXrange(st: StoreState, cmd: Command, clock: Clock, now: nat, es: seq<S.Entry>)
    requires WellFormed(st) && |cmd| >= 4 && now < U64
    requires StreamUnder(st, CStr(cmd[1])) == Some(es) && S.Ordered(es)
    requires S.CallFits(es, XaddCall(cmd, clock)) && HandleXadd(st, cmd, clock).Ran?
    ensures var r, call := HandleXadd(st, cmd, clock), XaddCall(cmd, clock);
            var es' := S.Add(es, call);
            && GetStream(r.store, CStr(cmd[1])) == Some(es')
            && S.Range(es', "-", "+", now) == es'
            && match S.AddOutcome(es, call)
               case Added(id) => es' == es + [S.Entry(id, call.fields, call.values)] && r.reply == BulkReply(id)
               case _ => es' == es
  {
    var key, call := CStr(cmd[1]), XaddCall(cmd, clock);
    SR.ReadsRefine(st, key, 0);
    AbsLookup(st.table, key);
    SR.StreamAddRefines(st, key, call);
    SR.ReadsRefine(StreamAdd(st, key, call), key, 0);
    S.AddKeepsOrder(es, call);
    FullRange(S.Add(es, call), now);
  }
}
