/** The RDB reader of app/rdb.c: two loops that walk a file of entries in step. */
module Rdb {
  import opened Options
  import opened Sequences
  import opened CText

  type byte = x: int | 0 <= x < 256

  type bytes = seq<byte>

  /** What a read returned and where it left the file cursor. */
  datatype At<+T> = At(value: T, pos: nat)

  const RDB_MAGIC: bytes := [82, 69, 68, 73, 83]  // "REDIS"
  const RDB_VERSION: bytes := [48, 48, 49, 49]    // "0011"
  const RDB_EOF: byte := 0xFF
  const RDB_DATABASE_START: byte := 0xFE
  const RDB_EXPIRE_SEC: byte := 0xFD
  const RDB_EXPIRE_MS: byte := 0xFC
  const RDB_HASHTABLE_SIZE: byte := 0xFB
  const RDB_TYPE_STRING: byte := 0x00
  const U32: nat := 0x1_0000_0000

  // ----- Primitive reads -----

  function BigEndian(b: bytes): nat {
    if b == [] then 0 else 256 * BigEndian(b[..|b| - 1]) + b[|b| - 1]
  }

  function LittleEndian(b: bytes): nat {
    if b == [] then 0 else b[0] + 256 * LittleEndian(b[1..])
  }

  /** readByte: 0 at the end of the file. */
  function ReadByte(img: bytes, c: nat): (r: At<byte>)
    requires c <= |img|
    ensures c <= r.pos <= |img|
  {
    if c < |img| then At(img[c], c + 1) else At(0, c)
  }

  /** A fixed-size fread: short of bytes it yields 0 and leaves the cursor at the end. */
  function ReadFixed(img: bytes, c: nat, n: nat): (r: At<bytes>)
    requires c <= |img|
    ensures c <= r.pos <= |img|
  {
    if c + n <= |img| then At(img[c..c + n], c + n) else At([], |img|)
  }

  function ReadUint32(img: bytes, c: nat): (r: At<nat>)
    requires c <= |img|
    ensures c <= r.pos <= |img|
  {
    var r := ReadFixed(img, c, 4);
    At(BigEndian(r.value), r.pos)
  }

  function ReadUint64(img: bytes, c: nat): (r: At<nat>)
    requires c <= |img|
    ensures c <= r.pos <= |img|
  {
    var r := ReadFixed(img, c, 8);
    At(LittleEndian(r.value), r.pos)
  }

  /** readLength: the top two bits of the first byte choose 6, 14 or 32 bits; 0 otherwise. */
  function ReadLength(img: bytes, c: nat): (r: At<nat>)
    requires c <= |img|
    ensures c <= r.pos <= |img|
    ensures r.value > 0 ==> c < r.pos
  {
    var first := ReadByte(img, c);
    var kind, low := first.value / 64, first.value % 64;
    if kind == 0 then At(low, first.pos)
    else if kind == 1 then
      var second := ReadByte(img, first.pos);
      At(low * 256 + second.value, second.pos)
    else if kind == 2 then ReadUint32(img, first.pos)
    else At(0, first.pos)
  }

  /** readString: None for a length of 0 or a string cut off by the end of the file. */
  function ReadString(img: bytes, c: nat): (r: At<Option<bytes>>)
    requires c <= |img|
    ensures c <= r.pos <= |img|
    ensures r.value.Some? ==> c < r.pos
  {
    var len := ReadLength(img, c);
    if len.value == 0 then At(None, len.pos)
    else if len.pos + len.value <= |img| then
      At(Some(img[len.pos..len.pos + len.value]), len.pos + len.value)
    else At(None, |img|)
  }

  // ----- The entries of a database section -----

  datatype Item = Item(key: bytes, isString: bool, expiry: nat, value: Option<bytes>)

  /** The type byte that follows an optional expiry, and the expiry in milliseconds. */
  datatype Head = Head(kind: byte, expiry: nat)

  function ReadHead(img: bytes, c: nat): (r: At<Head>)
    requires c <= |img|
    ensures c <= r.pos <= |img|
  {
    var first := ReadByte(img, c);
    if first.value == RDB_EXPIRE_MS then
      var e := ReadUint64(img, first.pos);
      var kind := ReadByte(img, e.pos);
      At(Head(kind.value, e.value), kind.pos)
    else if first.value == RDB_EXPIRE_SEC then
      var e := ReadUint32(img, first.pos);
      var kind := ReadByte(img, e.pos);
      At(Head(kind.value, e.value * 1000 % U32), kind.pos)
    else At(Head(first.value, 0), first.pos)
  }

  /** One iteration of either loop: an entry and the boundary after it, or None where the
      loop stops: the end marker, or a key that does not read. */
  function ReadEntry(img: bytes, c: nat): (r: Option<At<Item>>)
    requires c <= |img|
    ensures r.Some? ==> c < r.value.pos <= |img|
  {
    if ReadByte(img, c).value == RDB_EOF then None
    else
      var head := ReadHead(img, c);
      var key := ReadString(img, head.pos);
      if key.value.None? then None
      else if head.value.kind == RDB_TYPE_STRING then
        var value := ReadString(img, key.pos);
        Some(At(Item(key.value.value, true, head.value.expiry, value.value), value.pos))
      else Some(At(Item(key.value.value, false, head.value.expiry, None), key.pos))
  }

  /** All entries from a boundary on; the bytes that remain are the measure. */
  function Entries(img: bytes, c: nat): seq<Item>
    requires c <= |img|
    decreases |img| - c
  {
    match ReadEntry(img, c)
    case None => []
    case Some(At(item, next)) => [item] + Entries(img, next)
  }

  function KeysOf(items: seq<Item>): seq<bytes> {
    if items == [] then [] else [items[0].key] + KeysOf(items[1..])
  }

  /** The first string entry for a key decides, whether or not it has expired. */
  function Find(items: seq<Item>, key: bytes, now: nat): Option<bytes> {
    if items == [] then None
    else if items[0].key == key && items[0].isString then
      if items[0].expiry > 0 && now >= items[0].expiry then None else items[0].value
    else Find(items[1..], key, now)
  }

  // ----- Finding the section -----

  predicate HeaderOk(img: bytes) {
    |img| >= 9 && img[..5] == RDB_MAGIC && img[5..9] == RDB_VERSION
  }

  /** The scan meets a section or end marker; otherwise findDatabaseSection reads zeros at
      the end of the file for ever. */
  predicate ScanStops(img: bytes, c: nat) {
    exists i :: c <= i < |img| && (img[i] == RDB_DATABASE_START || img[i] == RDB_EOF)
  }

  /** After the section marker: the database number, then the sizes if 0xFB announces them. */
  function SkipSectionHeader(img: bytes, c: nat): (r: nat)
    requires c <= |img|
    ensures c <= r <= |img|
  {
    var number := ReadLength(img, c);
    var mark := ReadByte(img, number.pos);
    if mark.value == RDB_HASHTABLE_SIZE then ReadLength(img, ReadLength(img, mark.pos).pos).pos else mark.pos
  }

  function FindSection(img: bytes, c: nat): (r: Option<nat>)
    requires c <= |img| && ScanStops(img, c)
    ensures r.Some? ==> c < r.value <= |img|
    decreases |img| - c
  {
    if img[c] == RDB_EOF then None
    else if img[c] == RDB_DATABASE_START then Some(SkipSectionHeader(img, c + 1))
    else FindSection(img, c + 1)
  }

  /** The entries a reader of the whole file sees; None when there is no section. */
  function Section(img: bytes): Option<seq<Item>>
    requires HeaderOk(img) ==> ScanStops(img, 9)
  {
    if !HeaderOk(img) then None
    else
      match FindSection(img, 9)
      case None => None
      case Some(c) => Some(Entries(img, c))
  }

  // ----- The reader -----

  class RdbReader {
    const image: bytes
    var cursor: nat

    ghost predicate Valid()
      reads this
    {
      cursor <= |image|
    }

    constructor (image: bytes)
      ensures Valid() && this.image == image && cursor == 0
    {
      this.image, cursor := image, 0;
    }

    method NextByte() returns (b: byte)
      requires Valid()
      modifies this
      ensures Valid() && At(b, cursor) == ReadByte(image, old(cursor))
    {
      if cursor < |image| {
        b := image[cursor];
        cursor := cursor + 1;
      } else {
        b := 0;
      }
    }

    method NextLength() returns (n: nat)
      requires Valid()
      modifies this
      ensures Valid() && At(n, cursor) == ReadLength(image, old(cursor))
    {
      var b := NextByte();
      var first: int := b;
      if first / 64 == 0 {
        n := first % 64;
      } else if first / 64 == 1 {
        var second := NextByte();
        n := first % 64 * 256 + second;
      } else if first / 64 == 2 {
        var r := ReadUint32(image, cursor);
        n, cursor := r.value, r.pos;
      } else {
        n := 0;
      }
    }

    method NextString() returns (s: Option<bytes>)
      requires Valid()
      modifies this
      ensures Valid() && At(s, cursor) == ReadString(image, old(cursor))
    {
      var len := NextLength();
      if len == 0 {
        return None;
      }
      if cursor + len > |image| {
        cursor := |image|;
        return None;
      }
      s := Some(image[cursor..cursor + len]);
      cursor := cursor + len;
    }

    method ValidateHeader() returns (ok: bool)
      requires Valid() && cursor == 0
      modifies this
      ensures Valid() && ok == HeaderOk(image) && (ok ==> cursor == 9)
    {
      var magic := ReadFixed(image, cursor, 5);
      cursor := magic.pos;
      if magic.value != RDB_MAGIC {
        return false;
      }
      var version := ReadFixed(image, cursor, 4);
      cursor := version.pos;
      return version.value == RDB_VERSION;
    }

    method FindDatabaseSection() returns (found: bool)
      requires Valid() && ScanStops(image, cursor)
      modifies this
      ensures Valid() && found == FindSection(image, old(cursor)).Some?
      ensures found ==> cursor == FindSection(image, old(cursor)).value
    {
      var kind := NextByte();
      while kind != RDB_EOF
        invariant old(cursor) < cursor <= |image| && kind == image[cursor - 1] && ScanStops(image, cursor - 1)
        invariant FindSection(image, old(cursor)) == FindSection(image, cursor - 1)
        decreases |image| - cursor
      {
        if kind == RDB_DATABASE_START {
          var _ := NextLength();
          var mark := NextByte();
          if mark == RDB_HASHTABLE_SIZE {
            var _ := NextLength();
            var _ := NextLength();
          }
          return true;
        }
        kind := NextByte();
      }
      return false;
    }

    /** The type byte read at the top of a loop, past an expiry if it announces one. */
    method NextHead(first: byte, ghost start: nat) returns (head: Head)
      requires Valid() && start <= |image| && At(first, cursor) == ReadByte(image, start)
      modifies this
      ensures Valid() && At(head, cursor) == ReadHead(image, start)
    {
      if first == RDB_EXPIRE_MS {
        var e := ReadUint64(image, cursor);
        cursor := e.pos;
        var kind := NextByte();
        head := Head(kind, e.value);
      } else if first == RDB_EXPIRE_SEC {
        var e := ReadUint32(image, cursor);
        cursor := e.pos;
        var kind := NextByte();
        head := Head(kind, e.value * 1000 % U32);
      } else {
        head := Head(first, 0);
      }
    }

    /** getRdbKeys: every key, whatever its entry's type or expiry. */
    method GetRdbKeys() returns (keys: Option<seq<bytes>>)
      requires Valid() && cursor == 0 && (HeaderOk(image) ==> ScanStops(image, 9))
      modifies this
      ensures Valid() && keys == match Section(image) case None => None case Some(items) => Some(KeysOf(items))
    {
      var ok := ValidateHeader();
      if !ok {
        return None;
      }
      ok := FindDatabaseSection();
      if !ok {
        return None;
      }
      var listed := ListKeys();
      return Some(listed);
    }

    method ListKeys() returns (keys: seq<bytes>)
      requires Valid()
      modifies this
      ensures Valid() && keys == KeysOf(Entries(image, old(cursor)))
    {
      ghost var start := cursor;
      keys := [];
      var kind := NextByte();
      while kind != RDB_EOF
        invariant Valid() && start <= |image| && At(kind, cursor) == ReadByte(image, start)
        invariant KeysOf(Entries(image, old(cursor))) == keys + KeysOf(Entries(image, start))
        decreases |image| - start
      {
        var head := NextHead(kind, start);
        var key := NextString();
        if key.None? {
          break;
        }
        if head.kind == RDB_TYPE_STRING {
          var _ := NextString();
        }
        KeysStep(image, start, keys);
        keys := keys + [key.value];
        start := cursor;
        kind := NextByte();
      }
      assert keys + [] == keys;
    }

    /** getRdbValue: the live value of the first string entry for a key. */
    method GetRdbValue(target: bytes, now: nat) returns (r: Option<bytes>)
      requires Valid() && cursor == 0 && (HeaderOk(image) ==> ScanStops(image, 9))
      modifies this
      ensures Valid() && r == match Section(image) case None => None case Some(items) => Find(items, target, now)
    {
      var ok := ValidateHeader();
      if !ok {
        return None;
      }
      ok := FindDatabaseSection();
      if !ok {
        return None;
      }
      r := SearchValue(target, now);
    }

    method SearchValue(target: bytes, now: nat) returns (r: Option<bytes>)
      requires Valid()
      modifies this
      ensures Valid() && r == Find(Entries(image, old(cursor)), target, now)
    {
      ghost var start := cursor;
      var kind := NextByte();
      while kind != RDB_EOF
        invariant Valid() && start <= |image| && At(kind, cursor) == ReadByte(image, start)
        invariant Find(Entries(image, old(cursor)), target, now) == Find(Entries(image, start), target, now)
        decreases |image| - start
      {
        var head := NextHead(kind, start);
        var key := NextString();
        if key.None? {
          break;
        }
        EntriesStep(image, start);
        if head.kind == RDB_TYPE_STRING {
          var value := NextString();
          if key.value == target {
            return if head.expiry > 0 && now >= head.expiry then None else value;
          }
        }
        start := cursor;
        kind := NextByte();
      }
      return None;
    }
  }

  lemma EntriesStep(img: bytes, c: nat)
    requires c <= |img| && ReadEntry(img, c).Some?
    ensures Entries(img, c) != [] && Entries(img, c)[0] == ReadEntry(img, c).value.value
    ensures Entries(img, c)[1..] == Entries(img, ReadEntry(img, c).value.pos)
  {
    TailOfCons(ReadEntry(img, c).value.value, Entries(img, ReadEntry(img, c).value.pos));
  }

  lemma KeysStep(img: bytes, c: nat, keys: seq<bytes>)
    requires c <= |img| && ReadEntry(img, c).Some?
    ensures var At(item, next) := ReadEntry(img, c).value;
            keys + KeysOf(Entries(img, c)) == keys + [item.key] + KeysOf(Entries(img, next))
  {
    var At(item, next) := ReadEntry(img, c).value;
    EntriesStep(img, c);
    ConcatAssociative(keys, [item.key], KeysOf(Entries(img, next)));
  }

  /** Any key with a value is among the listed keys. */
  lemma {:induction false} FoundIsListed(items: seq<Item>, key: bytes, now: nat)
    ensures Find(items, key, now).Some? ==> key in KeysOf(items)
  {
    if items != [] {
      FoundIsListed(items[1..], key, now);
    }
  }

  /** For every image whose scan stops, a key that reads back a value is listed. */
  lemma ValueImpliesListed(img: bytes, key: bytes, now: nat)
    requires HeaderOk(img) ==> ScanStops(img, 9)
    requires Section(img).Some? && Find(Section(img).value, key, now).Some?
    ensures key in KeysOf(Section(img).value)
  {
    FoundIsListed(Section(img).value, key, now);
  }

  // ----- A reference writer -----

  // The writer spells the bytes of the format out.

  datatype Expiry = Never | AtMs(ms: nat) | AtSec(sec: nat)

  datatype Record = Record(key: bytes, value: bytes, expiry: Expiry)

  predicate Writable(r: Record) {
    && 0 < |r.key| < U32 && 0 < |r.value| < U32
    && InRange(r.expiry)
  }

  predicate InRange(e: Expiry) {
    match e case Never => true case AtMs(t) => t < U64 case AtSec(t) => t < U32
  }

  /** When the reader takes a record to expire, 0 for never: seconds are multiplied in 32 bits. */
  function Moment(e: Expiry): nat {
    match e case Never => 0 case AtMs(t) => t case AtSec(t) => t * 1000 % 0x1_0000_0000
  }

  function ToBigEndian(n: nat, k: nat): (b: bytes)
    ensures |b| == k
  {
    if k == 0 then [] else ToBigEndian(n / 256, k - 1) + [n % 256]
  }

  function ToLittleEndian(n: nat, k: nat): (b: bytes)
    ensures |b| == k
  {
    if k == 0 then [] else [n % 256] + ToLittleEndian(n / 256, k - 1)
  }

  function WriteLength(n: nat): (b: bytes)
    requires n < U32
    ensures |b| > 0
  {
    if n < 64 then [n]
    else if n < 16384 then [64 + n / 256, n % 256]
    else [128] + ToBigEndian(n, 4)
  }

  function WriteString(s: bytes): bytes
    requires |s| < U32
  {
    WriteLength(|s|) + s
  }

  function WriteHead(e: Expiry): bytes {
    match e
    case Never => [0x00]
    case AtMs(t) => [0xFC] + ToLittleEndian(t, 8) + [0x00]
    case AtSec(t) => [0xFD] + ToBigEndian(t, 4) + [0x00]
  }

  function WriteRecord(r: Record): bytes
    requires Writable(r)
  {
    WriteHead(r.expiry) + (WriteString(r.key) + WriteString(r.value))
  }

  function WriteRecords(rs: seq<Record>): bytes
    requires forall i :: 0 <= i < |rs| ==> Writable(rs[i])
  {
    if rs == [] then [0xFF] else WriteRecord(rs[0]) + WriteRecords(rs[1..])
  }

  /** A file with auxiliary bytes `meta` that hold no marker, one database section that
      announces its sizes, and any bytes after the end marker. */
  function WriteImage(meta: bytes, number: nat, size: nat, expiring: nat, rs: seq<Record>, trailer: bytes): bytes
    requires number < U32 && size < U32 && expiring < U32
    requires forall i :: 0 <= i < |rs| ==> Writable(rs[i])
  {
    [82, 69, 68, 73, 83] + [48, 48, 49, 49] + meta + [0xFE]
    + (WriteLength(number) + ([0xFB] + (WriteLength(size) + (WriteLength(expiring)
    + (WriteRecords(rs) + trailer)))))
  }

  function ItemOf(r: Record): Item {
    Item(r.key, true, Moment(r.expiry), Some(r.value))
  }

  function ItemsOf(rs: seq<Record>): seq<Item> {
    if rs == [] then [] else [ItemOf(rs[0])] + ItemsOf(rs[1..])
  }

  function RecordKeys(rs: seq<Record>): seq<bytes> {
    if rs == [] then [] else [rs[0].key] + RecordKeys(rs[1..])
  }

  /** The bytes w stand in the image at c. */
  predicate Holds(img: bytes, c: nat, w: bytes) {
    c + |w| <= |img| && forall i :: 0 <= i < |w| ==> img[c + i] == w[i]
  }

  lemma HoldsSlice(img: bytes, c: nat, w: bytes)
    requires Holds(img, c, w)
    ensures img[c..c + |w|] == w
  {
  }

  lemma HoldsSplit(img: bytes, c: nat, a: bytes, b: bytes)
    requires Holds(img, c, a + b)
    ensures Holds(img, c, a) && Holds(img, c + |a|, b)
  {
    var w := a + b;
    assert forall i :: 0 <= i < |a| ==> w[i] == a[i];
    assert forall i :: 0 <= i < |b| ==> w[|a| + i] == b[i];
  }

  lemma HoldsByte(img: bytes, c: nat, b: byte)
    requires Holds(img, c, [b])
    ensures c < |img| && img[c] == b
  {
    assert img[c + 0] == [b][0];
  }

  lemma {:induction false} BigEndianRoundTrip(n: nat, k: nat)
    requires n < Pow256(k)
    ensures BigEndian(ToBigEndian(n, k)) == n
  {
    if k > 0 {
      BigEndianRoundTrip(n / 256, k - 1);
      var b := ToBigEndian(n, k);
      assert b[..|b| - 1] == ToBigEndian(n / 256, k - 1);
    }
  }

  lemma {:induction false} LittleEndianRoundTrip(n: nat, k: nat)
    requires n < Pow256(k)
    ensures LittleEndian(ToLittleEndian(n, k)) == n
  {
    if k > 0 {
      LittleEndianRoundTrip(n / 256, k - 1);
    }
  }

  function Pow256(k: nat): nat {
    if k == 0 then 1 else 256 * Pow256(k - 1)
  }

  lemma Widths()
    ensures Pow256(4) == U32 && Pow256(8) == U64
  {
  }

  lemma LengthRoundTrip(img: bytes, c: nat, n: nat)
    requires n < U32 && Holds(img, c, WriteLength(n))
    ensures c <= |img| && ReadLength(img, c) == At(n, c + |WriteLength(n)|)
  {
    var w := WriteLength(n);
    assert img[c + 0] == w[0];
    if 64 <= n < 16384 {
      assert img[c + 1] == w[1];
    } else if n >= 16384 {
      HoldsSplit(img, c, [128], ToBigEndian(n, 4));
      HoldsSlice(img, c + 1, ToBigEndian(n, 4));
      Widths();
      BigEndianRoundTrip(n, 4);
    }
  }

  lemma StringRoundTrip(img: bytes, c: nat, s: bytes)
    requires 0 < |s| < U32 && Holds(img, c, WriteString(s))
    ensures c <= |img| && ReadString(img, c) == At(Some(s), c + |WriteString(s)|)
  {
    HoldsSplit(img, c, WriteLength(|s|), s);
    LengthRoundTrip(img, c, |s|);
    HoldsSlice(img, c + |WriteLength(|s|)|, s);
  }

  lemma HeadRoundTrip(img: bytes, c: nat, e: Expiry)
    requires InRange(e) && Holds(img, c, WriteHead(e))
    ensures c < |img| && ReadByte(img, c).value != 0xFF
    ensures ReadHead(img, c) == At(Head(0x00, Moment(e)), c + |WriteHead(e)|)
  {
    Widths();
    match e
    case Never =>
      HoldsByte(img, c, 0x00);
    case AtMs(t) =>
      MarkedPieces(img, c, 0xFC, ToLittleEndian(t, 8));
      LittleEndianRoundTrip(t, 8);
    case AtSec(t) =>
      MarkedPieces(img, c, 0xFD, ToBigEndian(t, 4));
      BigEndianRoundTrip(t, 4);
  }

  /** A mark, a fixed-size number and the type byte. */
  lemma MarkedPieces(img: bytes, c: nat, mark: byte, number: bytes)
    requires Holds(img, c, [mark] + number + [0x00])
    ensures c + |number| + 1 < |img| && img[c] == mark && img[c + 1 + |number|] == 0x00
    ensures img[c + 1..c + 1 + |number|] == number
  {
    HoldsSplit(img, c, [mark] + number, [0x00]);
    HoldsSplit(img, c, [mark], number);
    HoldsByte(img, c, mark);
    HoldsSlice(img, c + 1, number);
    HoldsByte(img, c + 1 + |number|, 0x00);
  }

  lemma RecordPieces(img: bytes, c: nat, h: bytes, k: bytes, v: bytes)
    requires Holds(img, c, h + (k + v))
    ensures Holds(img, c, h) && Holds(img, c + |h|, k) && Holds(img, c + |h| + |k|, v)
  {
    HoldsSplit(img, c, h, k + v);
    HoldsSplit(img, c + |h|, k, v);
  }

  lemma EntryFromPieces(img: bytes, c: nat, head: At<Head>, key: At<Option<bytes>>, value: At<Option<bytes>>)
    requires c <= |img| && ReadByte(img, c).value != RDB_EOF
    requires ReadHead(img, c) == head && head.value.kind == RDB_TYPE_STRING
    requires ReadString(img, head.pos) == key && key.value.Some?
    requires ReadString(img, key.pos) == value
    ensures ReadEntry(img, c) == Some(At(Item(key.value.value, true, head.value.expiry, value.value), value.pos))
  {
  }

  lemma RecordRoundTrip(img: bytes, c: nat, r: Record) returns (next: nat)
    requires Writable(r) && Holds(img, c, WriteRecord(r))
    ensures c <= |img| && next == c + |WriteRecord(r)| && ReadEntry(img, c) == Some(At(ItemOf(r), next))
  {
    var h, k, v := WriteHead(r.expiry), WriteString(r.key), WriteString(r.value);
    var keyAt: nat, valueAt: nat := c + |h|, c + |h| + |k|;
    next := valueAt + |v|;
    RecordPieces(img, c, h, k, v);
    HeadRoundTrip(img, c, r.expiry);
    StringRoundTrip(img, keyAt, r.key);
    StringRoundTrip(img, valueAt, r.value);
    EntryFromPieces(img, c, ReadHead(img, c), At(Some(r.key), valueAt), At(Some(r.value), next));
  }

  lemma EntriesCons(img: bytes, c: nat, item: Item, next: nat)
    requires c <= |img| && ReadEntry(img, c) == Some(At(item, next))
    ensures Entries(img, c) == [item] + Entries(img, next)
  {
  }

  lemma FirstRecord(img: bytes, c: nat, rs: seq<Record>) returns (next: nat)
    requires forall i :: 0 <= i < |rs| ==> Writable(rs[i])
    requires rs != [] && Holds(img, c, WriteRecords(rs))
    ensures c <= next <= |img| && Holds(img, next, WriteRecords(rs[1..]))
    ensures ReadEntry(img, c) == Some(At(ItemOf(rs[0]), next))
  {
    HoldsSplit(img, c, WriteRecord(rs[0]), WriteRecords(rs[1..]));
    next := RecordRoundTrip(img, c, rs[0]);
  }

  lemma {:induction false} RecordsRoundTrip(img: bytes, c: nat, rs: seq<Record>)
    requires forall i :: 0 <= i < |rs| ==> Writable(rs[i])
    requires Holds(img, c, WriteRecords(rs))
    ensures c <= |img| && Entries(img, c) == ItemsOf(rs)
    decreases |rs|
  {
    if rs == [] {
      HoldsByte(img, c, RDB_EOF);
    } else {
      var next := FirstRecord(img, c, rs);
      RecordsRoundTrip(img, next, rs[1..]);
      EntriesCons(img, c, ItemOf(rs[0]), next);
    }
  }

  lemma {:induction false} ScanFinds(img: bytes, c: nat, m: nat)
    requires c <= m < |img| && img[m] == RDB_DATABASE_START
    requires forall i :: c <= i < m ==> img[i] != RDB_EOF && img[i] != RDB_DATABASE_START
    ensures ScanStops(img, c) && FindSection(img, c) == Some(SkipSectionHeader(img, m + 1))
    decreases m - c
  {
    if c < m {
      ScanFinds(img, c + 1, m);
    }
  }

  lemma SkipTo(img: bytes, c: nat, mark: nat, second: nat, end: nat)
    requires c <= |img| && ReadLength(img, c).pos == mark < |img| && img[mark] == RDB_HASHTABLE_SIZE
    requires ReadLength(img, mark + 1).pos == second && ReadLength(img, second).pos == end
    ensures SkipSectionHeader(img, c) == end
  {
  }

  lemma SectionHeaderRoundTrip(img: bytes, c: nat, number: nat, size: nat, expiring: nat) returns (end: nat)
    requires number < U32 && size < U32 && expiring < U32
    requires Holds(img, c, WriteLength(number)) && Holds(img, c + |WriteLength(number)|, [RDB_HASHTABLE_SIZE])
    requires Holds(img, c + |WriteLength(number)| + 1, WriteLength(size))
    requires Holds(img, c + |WriteLength(number)| + 1 + |WriteLength(size)|, WriteLength(expiring))
    ensures end == c + |WriteLength(number)| + 1 + |WriteLength(size)| + |WriteLength(expiring)|
    ensures SkipSectionHeader(img, c) == end
  {
    var mark: nat := c + |WriteLength(number)|;
    var second: nat := mark + 1 + |WriteLength(size)|;
    end := second + |WriteLength(expiring)|;
    HoldsByte(img, mark, RDB_HASHTABLE_SIZE);
    LengthRoundTrip(img, c, number);
    LengthRoundTrip(img, mark + 1, size);
    LengthRoundTrip(img, second, expiring);
    SkipTo(img, c, mark, second, end);
  }

  /** The parts of a section, from the byte after its marker. */
  lemma SectionPieces(img: bytes, c: nat, n: bytes, z: bytes, x: bytes, rs: bytes, trailer: bytes)
    requires Holds(img, c, n + ([RDB_HASHTABLE_SIZE] + (z + (x + (rs + trailer)))))
    ensures Holds(img, c, n) && Holds(img, c + |n|, [RDB_HASHTABLE_SIZE]) && Holds(img, c + |n| + 1, z)
    ensures Holds(img, c + |n| + 1 + |z|, x) && Holds(img, c + |n| + 1 + |z| + |x|, rs)
  {
    HoldsSplit(img, c, n, [RDB_HASHTABLE_SIZE] + (z + (x + (rs + trailer))));
    HoldsSplit(img, c + |n|, [RDB_HASHTABLE_SIZE], z + (x + (rs + trailer)));
    HoldsSplit(img, c + |n| + 1, z, x + (rs + trailer));
    HoldsSplit(img, c + |n| + 1 + |z|, x, rs + trailer);
    HoldsSplit(img, c + |n| + 1 + |z| + |x|, rs, trailer);
  }

  /** The start of an image up to its section marker. */
  lemma ImageStart(img: bytes, meta: bytes, tail: bytes)
    requires img == RDB_MAGIC + RDB_VERSION + meta + [RDB_DATABASE_START] + tail
    requires forall i :: 0 <= i < |meta| ==> meta[i] != RDB_EOF && meta[i] != RDB_DATABASE_START
    ensures HeaderOk(img) && ScanStops(img, 9)
    ensures FindSection(img, 9) == Some(SkipSectionHeader(img, 10 + |meta|))
    ensures Holds(img, 10 + |meta|, tail)
  {
    var m := 9 + |meta|;
    assert img[..5] == RDB_MAGIC && img[5..9] == RDB_VERSION;
    assert forall i :: 9 <= i < m ==> img[i] == meta[i - 9];
    ScanFinds(img, 9, m);
    assert forall i :: 0 <= i < |tail| ==> img[m + 1 + i] == tail[i];
  }

  lemma WrittenTail(img: bytes, c: nat, number: nat, size: nat, expiring: nat, rs: seq<Record>, trailer: bytes)
    returns (d: nat)
    requires number < U32 && size < U32 && expiring < U32
    requires forall i :: 0 <= i < |rs| ==> Writable(rs[i])
    requires Holds(img, c, WriteLength(number) + ([RDB_HASHTABLE_SIZE] + (WriteLength(size) + (WriteLength(expiring)
                           + (WriteRecords(rs) + trailer)))))
    ensures c <= d <= |img| && SkipSectionHeader(img, c) == d && Entries(img, d) == ItemsOf(rs)
  {
    SectionPieces(img, c, WriteLength(number), WriteLength(size), WriteLength(expiring), WriteRecords(rs), trailer);
    d := SectionHeaderRoundTrip(img, c, number, size, expiring);
    RecordsRoundTrip(img, d, rs);
  }

  /** On every image of the reference writer the section holds exactly the records. */
  lemma WrittenSection(meta: bytes, number: nat, size: nat, expiring: nat, rs: seq<Record>, trailer: bytes)
    requires number < U32 && size < U32 && expiring < U32
    requires forall i :: 0 <= i < |rs| ==> Writable(rs[i])
    requires forall i :: 0 <= i < |meta| ==> meta[i] != 0xFF && meta[i] != 0xFE
    ensures var img := WriteImage(meta, number, size, expiring, rs, trailer);
            HeaderOk(img) && ScanStops(img, 9) && Section(img) == Some(ItemsOf(rs))
  {
    var img := WriteImage(meta, number, size, expiring, rs, trailer);
    ImageStart(img, meta, WriteLength(number) + ([RDB_HASHTABLE_SIZE] + (WriteLength(size)
                          + (WriteLength(expiring) + (WriteRecords(rs) + trailer)))));
    var _ := WrittenTail(img, 10 + |meta|, number, size, expiring, rs, trailer);
  }

  /** The value the first record for a key holds, unless its expiry has passed. */
  function FirstLive(rs: seq<Record>, key: bytes, now: nat): Option<bytes> {
    if rs == [] then None
    else if rs[0].key == key then
      if 0 < Moment(rs[0].expiry) <= now then None else Some(rs[0].value)
    else FirstLive(rs[1..], key, now)
  }

  lemma {:induction false} FindIsFirstLive(rs: seq<Record>, key: bytes, now: nat)
    ensures Find(ItemsOf(rs), key, now) == FirstLive(rs, key, now)
    ensures KeysOf(ItemsOf(rs)) == RecordKeys(rs)
  {
    if rs != [] {
      TailOfCons(ItemOf(rs[0]), ItemsOf(rs[1..]));
      FindIsFirstLive(rs[1..], key, now);
    }
  }

  /** Round trip: every key comes back, in order, and a lookup gives the first match's
      unexpired value. */
  lemma WrittenReadsBack(meta: bytes, number: nat, size: nat, expiring: nat, rs: seq<Record>, trailer: bytes, key: bytes, now: nat)
    requires number < U32 && size < U32 && expiring < U32
    requires forall i :: 0 <= i < |rs| ==> Writable(rs[i])
    requires forall i :: 0 <= i < |meta| ==> meta[i] != 0xFF && meta[i] != 0xFE
    ensures var img := WriteImage(meta, number, size, expiring, rs, trailer);
            && HeaderOk(img) && ScanStops(img, 9) && Section(img).Some?
            && KeysOf(Section(img).value) == RecordKeys(rs)
            && Find(Section(img).value, key, now) == FirstLive(rs, key, now)
  {
    WrittenSection(meta, number, size, expiring, rs, trailer);
    FindIsFirstLive(rs, key, now);
  }
}
