/**
 * MCUboot images (platform/uds_mcuboot_image.c): the TLV area and its printed form, and
 * the arithmetic of the swap-using-move layout.
 */
module Mcuboot {
  import opened Arithmetic
  import opened Bytes
  import opened Types

  datatype Parse = ParseOk | BufferTooSmall | BadMagic | BadLength

  const INFO_SIZE: nat := 4
  const TLV_HEADER_SIZE: nat := 4

  /** An entry of the area, and the place of one: the iterator does not copy values. */
  datatype Tlv = Tlv(kind: u16, value: seq<byte>)
  datatype Found = Found(kind: u16, length: u16, offset: nat)

  /** mcub_load_le16 */
  function LoadLE16(s: seq<byte>, i: nat): u16
    requires i + 2 <= |s|
  {
    Value(s[i]) + 256 * Value(s[i + 1])
  }

  function LE16(n: u16): (s: seq<byte>)
    ensures |s| == 2
  {
    [Low8(n), Low8(n / 256)]
  }

  /** Little-endian: the first byte counts ones, the second 256s. */
  lemma LittleEndian(n: u16)
    ensures Value(LE16(n)[0]) == n % 256 && Value(LE16(n)[1]) == n / 256
  {
    hide Low8, Value;
    Low8Mod(n);
    ValueLow8(n % 256);
    ValueLow8(n / 256);
  }

  /** Each entry is its kind, the length of its value, and the value. */
  lemma EntryLayout(t: Tlv)
    requires |t.value| < 0x1_0000
    ensures var r := PrintOne(t);
      && Value(r[0]) + 256 * Value(r[1]) == t.kind && Value(r[2]) + 256 * Value(r[3]) == |t.value|
      && r[4..] == t.value
  {
    hide Low8, Value, LE16;
    LittleEndian(t.kind);
    LittleEndian(|t.value|);
  }

  // ---- The printed form ----

  predicate Printable(ts: seq<Tlv>) {
    forall t :: t in ts ==> |t.value| < 0x1_0000
  }

  function PrintOne(t: Tlv): seq<byte>
    requires |t.value| < 0x1_0000
  {
    LE16(t.kind) + LE16(|t.value|) + t.value
  }

  function Print(ts: seq<Tlv>): seq<byte>
    requires Printable(ts)
    decreases |ts|
  {
    if ts == [] then [] else PrintOne(ts[0]) + Print(ts[1..])
  }

  /** The info record, with the total length of the area, and the entries. */
  ghost predicate IsArea(area: seq<byte>, magic: u16, ts: seq<Tlv>) {
    Printable(ts) && 4 + |Print(ts)| < 0x1_0000 && area == LE16(magic) + LE16(4 + |Print(ts)|) + Print(ts)
  }

  // ---- What an iteration yields ----

  /** The entry at the cursor, if the bytes left hold one. */
  function EntryAt(area: seq<byte>, cursor: nat): Option<Found>
    requires cursor <= |area|
    ensures EntryAt(area, cursor).Some? ==>
      var f := EntryAt(area, cursor).value; f.offset == cursor + TLV_HEADER_SIZE && f.offset + f.length <= |area|
  {
    if |area| - cursor < TLV_HEADER_SIZE then None
    else
      var length := LoadLE16(area, cursor + 2);
      if length > |area| - cursor - TLV_HEADER_SIZE then None
      else Some(Found(LoadLE16(area, cursor), length, cursor + TLV_HEADER_SIZE))
  }

  function Taken(area: seq<byte>, f: Found): Tlv
    requires f.offset + f.length <= |area|
  {
    Tlv(f.kind, area[f.offset..f.offset + f.length])
  }

  /** All entries from the cursor on, and the status the last call gives. */
  function Walk(area: seq<byte>, cursor: nat): (seq<Tlv>, Parse)
    requires cursor <= |area|
    decreases |area| - cursor
  {
    if cursor == |area| then ([], ParseOk)
    else match EntryAt(area, cursor)
      case None => ([], BadLength)
      case Some(f) =>
        var (ts, status) := Walk(area, f.offset + f.length);
        ([Taken(area, f)] + ts, status)
  }

  function Begin(area: seq<byte>, magic: u16): Parse {
    if |area| < INFO_SIZE then BufferTooSmall
    else if LoadLE16(area, 0) != magic then BadMagic
    else if LoadLE16(area, 2) < INFO_SIZE || LoadLE16(area, 2) != |area| then BadLength
    else ParseOk
  }

  /** A whole iteration: begin, and next until it yields nothing. */
  function Iterate(area: seq<byte>, magic: u16): (seq<Tlv>, Parse) {
    if Begin(area, magic) != ParseOk then ([], Begin(area, magic)) else Walk(area, INFO_SIZE)
  }

  // ---- The C code ----

  class TlvIterator {
    var area: seq<byte>
    var cursor: nat

    constructor ()
      ensures Valid()
    {
      area, cursor := [], 0;
    }

    ghost predicate Valid()
      reads this
    {
      cursor <= |area|
    }

    /** uds_mcuboot_tlv_iter_begin */
    method Start(bytes: seq<byte>, magic: u16) returns (status: Parse)
      requires Valid()
      modifies this
      ensures Valid() && status == Begin(bytes, magic)
      ensures status == ParseOk ==> area == bytes && cursor == INFO_SIZE
      ensures status != ParseOk ==> area == old(area) && cursor == old(cursor)
    {
      if |bytes| < INFO_SIZE {
        return BufferTooSmall;
      }
      var infoMagic := LoadLE16(bytes, 0);
      if infoMagic != magic {
        return BadMagic;
      }
      var total := LoadLE16(bytes, 2);
      if total < INFO_SIZE {
        return BadLength;
      }
      if total != |bytes| {
        return BadLength;
      }
      area := bytes;
      cursor := INFO_SIZE;
      status := ParseOk;
    }

    /** uds_mcuboot_tlv_iter_next: one entry of the walk, or its end. */
    method Next() returns (more: bool, out: Found, status: Parse)
      requires Valid()
      modifies this`cursor
      ensures Valid()
      ensures more ==> out.offset + out.length == cursor <= |area|
      ensures Walk(area, old(cursor)) ==
        if more then ([Taken(area, out)] + Walk(area, cursor).0, Walk(area, cursor).1) else ([], status)
      ensures !more ==> cursor == old(cursor) && (status == ParseOk <==> cursor == |area|)
      ensures more ==> status == ParseOk && cursor >= old(cursor) + TLV_HEADER_SIZE
    {
      out := Found(0, 0, 0);
      var remaining := |area| - cursor;
      if remaining == 0 {
        return false, out, ParseOk;
      }
      if remaining < TLV_HEADER_SIZE {
        return false, out, BadLength;
      }
      var kind := LoadLE16(area, cursor);
      var length := LoadLE16(area, cursor + 2);
      remaining := remaining - TLV_HEADER_SIZE;
      if length > remaining {
        return false, out, BadLength;
      }
      out := Found(kind, length, cursor + TLV_HEADER_SIZE);
      cursor := cursor + TLV_HEADER_SIZE + length;
      return true, out, ParseOk;
    }
  }

  // ---- Iterating and printing are inverse ----

  lemma LE16RoundTrip(n: u16, s: seq<byte>, i: nat)
    requires i + 2 <= |s| && s[i..i + 2] == LE16(n)
    ensures LoadLE16(s, i) == n
  {
    hide Low8, Value;
    assert s[i] == s[i..i + 2][0] && s[i + 1] == s[i..i + 2][1];
    ValueLow8(n % 256);
    ValueLow8(n / 256);
    Low8Mod(n);
  }

  lemma LoadedLE16(s: seq<byte>, i: nat)
    requires i + 2 <= |s|
    ensures LE16(LoadLE16(s, i)) == s[i..i + 2]
  {
    hide Low8, Value;
    var a, b := Value(s[i]), Value(s[i + 1]);
    assert (a + 256 * b) % 256 == a && (a + 256 * b) / 256 == b;
    Low8Mod(a + 256 * b);
    Low8Value(s[i]);
    Low8Value(s[i + 1]);
  }

  /** The printed entry behind any prefix is found there. */
  lemma EntryOfPrint(pre: seq<byte>, t: Tlv, post: seq<byte>)
    requires |t.value| < 0x1_0000
    ensures var area, f := pre + PrintOne(t) + post, Found(t.kind, |t.value|, |pre| + 4);
      EntryAt(area, |pre|) == Some(f) && Taken(area, f) == t && f.offset + f.length == |pre + PrintOne(t)|
  {
    hide LE16, LoadLE16;
    var area := pre + PrintOne(t) + post;
    assert area[|pre|..|pre| + 2] == LE16(t.kind) && area[|pre| + 2..|pre| + 4] == LE16(|t.value|);
    LE16RoundTrip(t.kind, area, |pre|);
    LE16RoundTrip(|t.value|, area, |pre| + 2);
    assert area[|pre| + 4..|pre| + 4 + |t.value|] == t.value;
  }

  lemma WalkStep(area: seq<byte>, cursor: nat, f: Found)
    requires cursor <= |area| && EntryAt(area, cursor) == Some(f)
    ensures Walk(area, cursor) ==
      ([Taken(area, f)] + Walk(area, f.offset + f.length).0, Walk(area, f.offset + f.length).1)
  {}

  lemma PrintCons(ts: seq<Tlv>)
    requires Printable(ts) && ts != []
    ensures |ts[0].value| < 0x1_0000 && Printable(ts[1..]) && Print(ts) == PrintOne(ts[0]) + Print(ts[1..])
  {}

  lemma Associates(a: seq<byte>, b: seq<byte>, c: seq<byte>)
    ensures a + (b + c) == a + b + c
  {}

  lemma ConsTail(ts: seq<Tlv>)
    requires ts != []
    ensures [ts[0]] + ts[1..] == ts
  {}

  lemma PrintNil(pre: seq<byte>)
    ensures Walk(pre + Print([]), |pre|) == ([], ParseOk)
  {
    assert pre + [] == pre;
  }

  /** Walking the printed entries behind any prefix yields them, and ends cleanly. */
  lemma {:induction false} WalkOfPrint(pre: seq<byte>, ts: seq<Tlv>)
    requires Printable(ts)
    ensures Walk(pre + Print(ts), |pre|) == (ts, ParseOk)
    decreases |ts|
  {
    hide *;
    if ts == [] {
      PrintNil(pre);
    } else {
      PrintCons(ts);
      var t, p, post := ts[0], PrintOne(ts[0]), Print(ts[1..]);
      Associates(pre, p, post);
      EntryOfPrint(pre, t, post);
      WalkStep(pre + p + post, |pre|, Found(t.kind, |t.value|, |pre| + 4));
      WalkOfPrint(pre + p, ts[1..]);
      ConsTail(ts);
    }
  }

  /** A walk that ends cleanly has read exactly the printed form of what it yielded. */
  lemma {:induction false} PrintOfWalk(area: seq<byte>, cursor: nat)
    requires cursor <= |area| && Walk(area, cursor).1 == ParseOk
    ensures Printable(Walk(area, cursor).0) && Print(Walk(area, cursor).0) == area[cursor..]
    decreases |area| - cursor
  {
    hide LE16, LoadLE16;
    if cursor < |area| {
      var f := EntryAt(area, cursor).value;
      var t, next := Taken(area, f), f.offset + f.length;
      PrintOfWalk(area, next);
      LoadedLE16(area, cursor);
      LoadedLE16(area, cursor + 2);
      LoadedEntry(area, cursor);
      assert Walk(area, cursor).0[1..] == Walk(area, next).0;
      assert area[cursor..] == area[cursor..next] + area[next..];
    }
  }

  lemma LoadedEntry(area: seq<byte>, cursor: nat)
    requires cursor <= |area| && EntryAt(area, cursor).Some?
    ensures var f := EntryAt(area, cursor).value;
      |Taken(area, f).value| < 0x1_0000 && PrintOne(Taken(area, f)) == area[cursor..f.offset + f.length]
  {
    hide LE16, LoadLE16;
    var f := EntryAt(area, cursor).value;
    LoadedLE16(area, cursor);
    LoadedLE16(area, cursor + 2);
    assert area[cursor..f.offset + f.length] ==
      area[cursor..cursor + 2] + area[cursor + 2..cursor + 4] + area[f.offset..f.offset + f.length];
  }

  lemma AreaIterates(area: seq<byte>, magic: u16, ts: seq<Tlv>)
    requires IsArea(area, magic, ts)
    ensures Iterate(area, magic) == (ts, ParseOk)
  {
    hide LE16, LoadLE16, Walk, Print;
    assert area[0..2] == LE16(magic) && area[2..4] == LE16(4 + |Print(ts)|);
    LE16RoundTrip(magic, area, 0);
    LE16RoundTrip(4 + |Print(ts)|, area, 2);
    WalkOfPrint(LE16(magic) + LE16(4 + |Print(ts)|), ts);
  }

  lemma CleanIterationIsArea(area: seq<byte>, magic: u16)
    requires Iterate(area, magic).1 == ParseOk
    ensures IsArea(area, magic, Iterate(area, magic).0)
  {
    hide LE16, LoadLE16, Walk, Print;
    PrintOfWalk(area, 4);
    LoadedLE16(area, 0);
    LoadedLE16(area, 2);
    assert area == area[0..2] + area[2..4] + area[4..];
  }

  /**
   * An iteration ends cleanly exactly on the printed form of a list, which it then yields
   * in order; on all other bytes it ends in an error.
   */
  lemma IterateExactly(area: seq<byte>, magic: u16, ts: seq<Tlv>)
    ensures Iterate(area, magic) == (ts, ParseOk) <==> IsArea(area, magic, ts)
  {
    hide Iterate, IsArea;
    if IsArea(area, magic, ts) {
      AreaIterates(area, magic, ts);
    }
    if Iterate(area, magic).1 == ParseOk {
      CleanIterationIsArea(area, magic);
    }
  }

  /** Even an iteration that ends in an error yields no more entries than headers fit. */
  lemma {:induction false} WalkIsShort(area: seq<byte>, cursor: nat)
    requires cursor <= |area|
    ensures |Walk(area, cursor).0| <= (|area| - cursor) / 4
    decreases |area| - cursor
  {
    if cursor < |area| && EntryAt(area, cursor).Some? {
      var f := EntryAt(area, cursor).value;
      WalkIsShort(area, f.offset + f.length);
    }
  }

  /** Why an area is refused before any entry: too short, another magic, another length than its own. */
  lemma BeginAnswer(area: seq<byte>, magic: u16)
    ensures Begin(area, magic) ==
      if |area| < 4 then BufferTooSmall
      else if Value(area[0]) + 256 * Value(area[1]) != magic then BadMagic
      else if Value(area[2]) + 256 * Value(area[3]) != |area| then BadLength
      else ParseOk
  {
    hide Value;
  }

  /** What breaks an iteration off behind the header is always a bad length. */
  lemma {:induction false} WalkStatus(area: seq<byte>, cursor: nat)
    requires cursor <= |area|
    ensures Walk(area, cursor).1 in {ParseOk, BadLength}
    decreases |area| - cursor
  {
    if cursor < |area| && EntryAt(area, cursor).Some? {
      var f := EntryAt(area, cursor).value;
      WalkStatus(area, f.offset + f.length);
    }
  }

  // ---- Swap using move ----

  function Max(a: nat, b: nat): nat {
    if a < b then b else a
  }

  /** The trailer as a number: three status entries a sector, four aligned fields, the magic. */
  function Trailer(writeSize: nat, sectors: nat): nat {
    var align := Max(writeSize, 8);
    sectors * 3 * writeSize + 4 * align + Max(align, 16)
  }

  lemma AtMostQuotient(n: nat, d: nat, m: nat)
    requires d > 0
    ensures n <= m / d <==> n * d <= m
  {
    var q := m / d;
    assert m == q * d + m % d;
    if n <= q {
      MulMonotone(n, q, d);
    } else {
      MulMonotone(q + 1, n, d);
    }
  }

  lemma Regroup(n: nat, w: nat)
    ensures n * (3 * w) == n * 3 * w
    ensures n > 0 ==> n * 3 * w >= 3 * w
  {
    if n > 0 {
      MulMonotone(1, n, 3 * w);
    }
  }

  /** uds_mcuboot_swap_move_trailer_size: the trailer if it fits 32 bits, else 0; no intermediate overflows. */
  method SwapMoveTrailerSize(writeSize: u32, sectors: u32) returns (size: u32)
    ensures size == if writeSize == 0 || sectors == 0 || Trailer(writeSize, sectors) > U32_MAX then 0
                    else Trailer(writeSize, sectors)
  {
    if writeSize == 0 || sectors == 0 {
      return 0;
    }
    Regroup(sectors, writeSize);
    var maxAlign: u32 := if writeSize > 8 then writeSize else 8;
    var magicSize: u32 := if maxAlign > 16 then maxAlign else 16;
    if writeSize > U32_MAX / 3 {
      return 0;
    }
    AtMostQuotient(sectors, 3 * writeSize, U32_MAX);
    if sectors > U32_MAX / (3 * writeSize) {
      return 0;
    }
    var statusSize: u32 := sectors * 3 * writeSize;
    if statusSize > U32_MAX - magicSize {
      return 0;
    }
    if maxAlign > (U32_MAX - magicSize - statusSize) / 4 {
      return 0;
    }
    size := statusSize + 4 * maxAlign + magicSize;
  }

  /** Division and multiplication by the sector size, by name: the proofs about the code need only their bounds. */
  function Quotient(n: nat, d: nat): nat
    requires d > 0
  {
    n / d
  }

  function Product(n: nat, d: nat): nat {
    n * d
  }

  function CeilDiv(n: nat, d: nat): nat
    requires d > 0
  {
    n / d + if n % d != 0 then 1 else 0
  }

  /** The capacity as the code computes it, the one sum that can wrap included. */
  function Capacity(primary: u32, secondary: u32, sector: u32, trailer: u32): nat {
    if primary == 0 || secondary == 0 || sector == 0 || trailer == 0 then 0
    else
      var sectors, needed := Quotient(primary, sector), (1 + CeilDiv(trailer, sector)) % 0x1_0000_0000;
      if sectors <= needed then 0
      else
        var room := Product(sectors - needed, sector);
        if room < secondary then room else secondary
  }

  /** The layouts that the unit tests of the repository name. */
  lemma LayoutExamples()
    ensures Trailer(32, 128) == 12448 && Trailer(16, 128) == 6224 && Trailer(8, 128) == 3120 && Trailer(4, 128) == 1584
    ensures Capacity(768 * 1024, 768 * 1024, 128 * 1024, 12448) == 512 * 1024
    ensures Capacity(64 * 1024, 64 * 1024, 4 * 1024, 6224) == 13 * 4 * 1024
    ensures Capacity(32 * 1024, 32 * 1024, 4 * 1024, 4 * 1024) == 6 * 4 * 1024
  {}

  /** An image fits the secondary slot, and the primary beside the trailer and the sector of the move. */
  ghost predicate Fits(size: nat, primary: u32, secondary: u32, sector: u32, trailer: u32)
    requires sector > 0
  {
    size <= secondary && CeilDiv(size, sector) + 1 + CeilDiv(trailer, sector) <= Quotient(primary, sector)
  }

  /** The largest image that fits, 0 if none does. */
  ghost predicate IsLargest(size: nat, primary: u32, secondary: u32, sector: u32, trailer: u32)
    requires sector > 0
  {
    (size == 0 || Fits(size, primary, secondary, sector, trailer)) &&
    forall n: nat :: n > size ==> !Fits(n, primary, secondary, sector, trailer)
  }

  /** uds_mcuboot_swap_move_capacity */
  method SwapMoveCapacity(primary: u32, secondary: u32, sector: u32, trailer: u32) returns (capacity: u32)
    ensures capacity == Capacity(primary, secondary, sector, trailer)
  {
    if primary == 0 || secondary == 0 || sector == 0 || trailer == 0 {
      return 0;
    }
    hide Quotient, Product, CeilDiv;
    QuotientBound(primary, sector);
    CeilBound(trailer, sector);
    var sectors: u32 := Quotient(primary, sector);
    var trailerSectors: u32 := CeilDiv(trailer, sector);
    var needed: u32 := (1 + trailerSectors) % 0x1_0000_0000;
    if sectors <= needed {
      return 0;
    }
    RoomBound(sectors - needed, sectors, sector);
    var room: u32 := Product(sectors - needed, sector);
    capacity := if room < secondary then room else secondary;
  }

  lemma RoomBound(k: nat, sectors: nat, sector: nat)
    requires k <= sectors
    ensures Product(k, sector) <= Product(sectors, sector)
  {
    MulMonotone(k, sectors, sector);
  }

  lemma NoRoom(sector: nat)
    ensures Product(0, sector) == 0
  {}

  lemma QuotientBound(n: nat, d: nat)
    requires d > 0
    ensures Product(Quotient(n, d), d) <= n && Quotient(n, d) <= n
  {
    assert n == n / d * d + n % d;
    MulMonotone(1, d, n / d);
  }

  lemma CeilBound(n: nat, d: nat)
    requires d > 0
    ensures CeilDiv(n, d) <= n
    ensures CeilDiv(n, d) == n <==> n <= 1 || d == 1
    ensures d >= 2 ==> 2 * CeilDiv(n, d) <= n + 1
  {
    var q, r := n / d, n % d;
    assert n == q * d + r;
    if d == 1 {
      assert r == 0 && q == n;
    } else {
      MulMonotone(2, d, q);
      assert q * d >= 2 * q;
    }
  }

  lemma CeilAtMost(n: nat, d: nat, k: nat)
    requires d > 0
    ensures CeilDiv(n, d) <= k <==> n <= Product(k, d)
  {
    var q, r := n / d, n % d;
    assert n == q * d + r;
    if r == 0 {
      if q <= k { MulMonotone(q, k, d); } else { MulMonotone(k + 1, q, d); }
    } else {
      if q + 1 <= k { MulMonotone(q + 1, k, d); } else { MulMonotone(k, q, d); }
    }
  }

  /**
   * For non-zero arguments the capacity is the largest image that fits, except when a
   * 1-byte sector meets the largest trailer: there the sum wraps and the result is wrong.
   */
  lemma CapacityIsLargestExactlyWhen(primary: u32, secondary: u32, sector: u32, trailer: u32)
    requires primary > 0 && secondary > 0 && sector > 0 && trailer > 0
    ensures IsLargest(Capacity(primary, secondary, sector, trailer), primary, secondary, sector, trailer)
      <==> !(sector == 1 && trailer == U32_MAX)
  {
    hide CeilDiv, Quotient, Product;
    CeilBound(trailer, sector);
    var sectors, t := Quotient(primary, sector), CeilDiv(trailer, sector);
    QuotientBound(primary, sector);
    if sector == 1 && trailer == U32_MAX {
      WrappedCapacity(primary, secondary);
    } else {
      assert t < U32_MAX;
      NoRoom(sector);
      var c := Capacity(primary, secondary, sector, trailer);
      forall n: nat
        ensures Fits(n, primary, secondary, sector, trailer) <==>
                n <= secondary && 1 + t <= sectors && n <= Product(sectors - 1 - t, sector)
      {
        if 1 + t <= sectors {
          CeilAtMost(n, sector, sectors - 1 - t);
        }
      }
    }
  }

  lemma WrappedCapacity(primary: u32, secondary: u32)
    requires primary > 0 && secondary > 0
    ensures Capacity(primary, secondary, 1, U32_MAX) > 0
    ensures !Fits(Capacity(primary, secondary, 1, U32_MAX), primary, secondary, 1, U32_MAX)
  {}
}
