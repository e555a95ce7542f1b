/** The on-disk layout of the file ring buffer and its operations as pure
    transitions over a snapshot of the file region and the two cursors.

    A snapshot is the whole file: `HeaderLen` header bytes (unused when the
    header lives in the key-value store) followed by `capacity + 1` bytes of
    circular data. Positions are absolute file offsets. A stored item is a
    4-byte length (`struct` format "i", little-endian on the device) followed
    by the item bytes. The byte at `buffer_size - 1` (`Last()`) is never
    written by a put: reaching it means "wrap to `HeaderLen`". */
module RingLayout {
  import opened Common

  // fileringbufferconstants.py
  const PosValueLen := 8
  const ReadPosIdx := 0
  const WritePosIdx := PosValueLen
  const SeqIdIdx := PosValueLen * 2
  const AckIdIdx := PosValueLen * 3
  const HeaderLen := PosValueLen * 4
  const ItemSizeLen := 4

  /** The default `max_len` of `_readItemAtPosition`. */
  const DefaultMaxLen := 100

  function BufferSize(capacity: nat): nat
  {
    HeaderLen + capacity + 1
  }

  /** A snapshot of the file region with the in-memory read and write cursors. */
  datatype Ring = Ring(data: seq<byte>, read: int, write: int)
  {
    /** `buffer_size - 1`, the reserved last byte. */
    function Last(): int
    {
      |data| - 1
    }

    function Capacity(): int
    {
      |data| - HeaderLen - 1
    }

    /** Both cursors lie inside the data region (the last byte included). */
    predicate Shaped()
    {
      |data| > HeaderLen && HeaderLen <= read <= Last() && HeaderLen <= write <= Last()
    }

    /** `FileRingBuffer.empty` */
    predicate Empty()
    {
      read == write
    }
  }

  /** The signed length stored at `p`. */
  function LenAt(d: seq<byte>, p: int): int
    requires 0 <= p && p + ItemSizeLen <= |d|
  {
    Radix4();
    Signed32(FromLEAt(d, p, ItemSizeLen))
  }

  /** The stored length is the "i" unpacking of the four bytes at `p`. */
  lemma LenAtDecodes(d: seq<byte>, p: int)
    requires 0 <= p && p + ItemSizeLen <= |d|
    ensures LenAt(d, p) == DecodeI32(d[p .. p + ItemSizeLen])
  {
    FromLEAtSlice(d, p, ItemSizeLen);
  }

  /** The position just past the item stored at `p` (`_advance_read_position`). */
  function Hop(d: seq<byte>, p: int): int
    requires 0 <= p && p + ItemSizeLen <= |d|
  {
    p + ItemSizeLen + LenAt(d, p)
  }

  /** Reading the length at `p` neither raises nor moves the reader backwards
      or beyond the reserved last byte. */
  predicate HopReadable(d: seq<byte>, p: int)
  {
    0 <= p && p + ItemSizeLen <= |d| && LenAt(d, p) >= 0 && Hop(d, p) <= |d| - 1
  }

  /** `_reader_needs_advancing(n)` with `size == _ITEM_SIZE_LEN + n`. */
  predicate NeedsAdvancing(r: int, w: int, size: int)
  {
    r > w && r - w < size
  }

  /** Every length the eviction walk of `put` reads is readable. */
  predicate EvictReadable(d: seq<byte>, r: int, w: int, size: int)
    decreases w + size - r
  {
    NeedsAdvancing(r, w, size) ==> HopReadable(d, r) && EvictReadable(d, Hop(d, r), w, size)
  }

  /** Where the eviction walk of `put` leaves the reader (fileringbuffer.py:254-255). */
  function Evict(d: seq<byte>, r: int, w: int, size: int): (e: int)
    requires EvictReadable(d, r, w, size)
    ensures e >= r && !NeedsAdvancing(e, w, size)
    ensures r <= |d| - 1 ==> e <= |d| - 1
    decreases w + size - r
  {
    if NeedsAdvancing(r, w, size) then Evict(d, Hop(d, r), w, size) else r
  }

  /** `d` with `b` written at `p`. */
  function Overwrite(d: seq<byte>, p: int, b: seq<byte>): (r: seq<byte>)
    requires 0 <= p && p + |b| <= |d|
    ensures |r| == |d|
    decreases |b|
  {
    if |b| == 0 then d else Overwrite(d[p := b[0]], p + 1, b[1..])
  }

  /** Overwriting puts `b` at `p` and keeps every other byte. */
  lemma {:induction false} OverwriteFacts(d: seq<byte>, p: int, b: seq<byte>)
    requires 0 <= p && p + |b| <= |d|
    ensures Overwrite(d, p, b)[..p] == d[..p]
    ensures Overwrite(d, p, b)[p + |b|..] == d[p + |b|..]
    ensures Overwrite(d, p, b)[p .. p + |b|] == b
    decreases |b|
  {
    if |b| > 0 {
      var d' := d[p := b[0]];
      var r := Overwrite(d', p + 1, b[1..]);
      OverwriteFacts(d', p + 1, b[1..]);
      assert r[..p] == r[..p + 1][..p] && d'[..p] == d[..p];
      assert r[p .. p + |b|] == [b[0]] + r[p + 1 .. p + |b|];
    }
  }

  /** The result of `_readItemAtPosition`, with the file position left behind. */
  datatype ItemRead =
    | PastEnd                                 // position at or past the last byte: None, file not touched
    | ReadFailed                              // the seek or the length unpack raised
    | Read(item: Option<seq<byte>>, tell: int)

  /** `_readItemAtPosition(position, max_len)` (fileringbuffer.py:321-339). */
  function ReadItemAt(d: seq<byte>, pos: int, maxLen: nat): (r: ItemRead)
    ensures r.PastEnd? <==> pos >= |d| - 1
    ensures r.Read? ==> 0 <= pos && pos + ItemSizeLen <= r.tell <= |d|
    ensures r.Read? && r.item.Some? ==> |r.item.value| <= maxLen
    ensures r.Read? && r.item.Some? ==> r.item.value == d[pos + ItemSizeLen .. r.tell]
    ensures r.ReadFailed? <==> pos < |d| - 1 && (pos < 0 || pos + ItemSizeLen > |d|)
    ensures r.Read? ==> (r.item.None? <==> LenAt(d, pos) <= 0)
    ensures r.Read? && r.item.None? ==> r.tell == pos + ItemSizeLen
    ensures r.Read? && r.item.Some? ==>
      |r.item.value| <= LenAt(d, pos) &&
      (|r.item.value| == LenAt(d, pos) || |r.item.value| == maxLen || r.tell == |d|)
  {
    if pos >= |d| - 1 then PastEnd
    else if pos < 0 || pos + ItemSizeLen > |d| then ReadFailed
    else
      var len := LenAt(d, pos);
      if len <= 0 then Read(None, pos + ItemSizeLen)
      else
        var n := if len > maxLen then maxLen else len;
        var stop := if pos + ItemSizeLen + n > |d| then |d| else pos + ItemSizeLen + n;
        Read(Some(d[pos + ItemSizeLen .. stop]), stop)
  }

  // ---------------------------------------------------------------------
  // Transitions

  /** `put` wraps the writer when the item and the reserved byte do not fit
      between the write position and the end of the file (fileringbuffer.py:240). */
  predicate Wraps(s: Ring, n: nat)
  {
    s.write + ItemSizeLen + n + 1 > |s.data|
  }

  /** The wrap made the writer lap a reader that sat ahead of it (fileringbuffer.py:245). */
  predicate Laps(s: Ring, n: nat)
  {
    Wraps(s, n) && !s.Empty() && s.read > s.write
  }

  /** Where `put` stores the item. */
  function PutSlot(s: Ring, n: nat): int
  {
    if Wraps(s, n) then HeaderLen else s.write
  }

  /** The read position when the eviction walk starts (fileringbuffer.py:240-250). */
  function WalkStart(s: Ring, n: nat): int
    requires Laps(s, n) ==> HopReadable(s.data, HeaderLen)
  {
    if !Wraps(s, n) then s.read
    else if s.Empty() then HeaderLen
    else if s.read > s.write then Hop(s.data, HeaderLen)
    else s.read
  }

  /** Every length that `put` reads while evicting is well formed, so that
      the source neither raises nor loops there. */
  predicate PutReadable(s: Ring, n: nat)
  {
    ItemSizeLen + n <= s.Capacity() && !s.Empty() ==>
      (Laps(s, n) ==> HopReadable(s.data, HeaderLen)) &&
      EvictReadable(s.data, WalkStart(s, n), PutSlot(s, n), ItemSizeLen + n)
  }

  /** `put(item)` (fileringbuffer.py:228-277). An item that does not fit the
      capacity changes nothing (the assertion is caught). An item shorter
      than three bytes, or too long for format "i", makes the source raise
      after the cursors moved and before anything is written; the exception
      is caught, so the moved cursors stay in memory. */
  function PutRing(s: Ring, item: seq<byte>): (t: Ring)
    requires s.Shaped() && PutReadable(s, |item|)
    ensures t.Shaped() && t.Capacity() == s.Capacity()
    ensures ItemSizeLen + |item| > s.Capacity() ==> t == s
    ensures ItemSizeLen + |item| <= s.Capacity() ==> t.read == PutReader(s, |item|)
    ensures ItemSizeLen + |item| <= s.Capacity() && (|item| < 3 || |item| >= 0x8000_0000) ==>
      t.data == s.data && t.write == PutSlot(s, |item|)
    ensures ItemSizeLen + |item| <= s.Capacity() && 3 <= |item| < 0x8000_0000 ==>
      t.write == PutSlot(s, |item|) + ItemSizeLen + |item|
  {
    var n := |item|;
    if ItemSizeLen + n > s.Capacity() then s
    else if n < 3 || n >= 0x8000_0000 then Ring(s.data, PutReader(s, n), PutSlot(s, n))
    else Placed(s.data, PutReader(s, n), PutSlot(s, n), item)
  }

  /** The snapshot once `item` is stored at `slot`: the writer just past it,
      the reader at `r`. */
  function Placed(d: seq<byte>, r: int, slot: int, item: seq<byte>): Ring
    requires 0 <= slot && slot + ItemSizeLen + |item| <= |d| && |item| < 0x8000_0000
  {
    Ring(Store(d, slot, item), r, slot + ItemSizeLen + |item|)
  }

  /** An item that fits and can be packed is stored at `PutSlot`, and the
      writer moves just past it. */
  lemma PutRingStores(s: Ring, item: seq<byte>)
    requires s.Shaped() && PutReadable(s, |item|)
    requires 3 <= |item| < 0x8000_0000 && ItemSizeLen + |item| <= s.Capacity()
    ensures PutRing(s, item) == Placed(s.data, PutReader(s, |item|), PutSlot(s, |item|), item)
  {
  }

  /** The read position once `put` has made room for an item of `n` bytes. */
  function PutReader(s: Ring, n: nat): (r: int)
    requires s.Shaped() && PutReadable(s, n) && ItemSizeLen + n <= s.Capacity()
    ensures HeaderLen <= r <= s.Last()
  {
    if s.Empty() then WalkStart(s, n) else Evict(s.data, WalkStart(s, n), PutSlot(s, n), ItemSizeLen + n)
  }

  /** The file with `item` stored (length, then bytes) at `p`. */
  function Store(d: seq<byte>, p: int, item: seq<byte>): (e: seq<byte>)
    requires 0 <= p && p + ItemSizeLen + |item| <= |d| && |item| < 0x8000_0000
    ensures |e| == |d|
  {
    Overwrite(d, p, EncodeI32(|item|) + item)
  }

  /** `get()` (fileringbuffer.py:285-307); the pair holds the new snapshot and
      the returned item. A failed read raises before any cursor moves. */
  function GetRing(s: Ring): (Ring, Fallible<Option<seq<byte>>>)
    requires s.Shaped() && s.read < s.Last()
  {
    match ReadItemAt(s.data, s.read, DefaultMaxLen)
    // PastEnd cannot happen: the reader is before the last byte
    case Read(item, tell) =>
      if tell >= s.Last() then
        (Ring(s.data, HeaderLen, if s.write >= s.Last() then HeaderLen else s.write), Done(item))
      else
        (Ring(s.data, tell, s.write), Done(item))
    case _ => (s, Raised)
  }

  /** `peek()` (fileringbuffer.py:342-367): a reader stuck on the last byte
      is moved back to `HeaderLen` in memory before reading. */
  function PeekRing(s: Ring): (Ring, Fallible<Option<seq<byte>>>)
    requires s.Shaped()
  {
    if s.Empty() then (s, Done(None))
    else
      var s1 := if s.read >= s.Last() then s.(read := HeaderLen) else s;
      if s1.Empty() then (s1, Done(None))
      else
        match ReadItemAt(s1.data, s1.read, DefaultMaxLen)
        case Read(item, _) => (s1, Done(item))
        case PastEnd => (s1, Done(None))
        case ReadFailed => (s1, Raised)
  }

  /** The position `peekLast(blockSize)` reads (fileringbuffer.py:372-375). */
  function PeekLastPos(s: Ring, blockSize: nat): int
  {
    var pos := s.write - blockSize - ItemSizeLen;
    if pos < HeaderLen then s.Last() - blockSize - ItemSizeLen else pos
  }

  /** `peekLast(blockSize)` (fileringbuffer.py:370-380). */
  function PeekLastRing(s: Ring, blockSize: nat): Fallible<Option<seq<byte>>>
  {
    match ReadItemAt(s.data, PeekLastPos(s, blockSize), blockSize)
    case Read(item, _) => Done(item)
    case PastEnd => Done(None)
    case ReadFailed => Raised
  }

  /** `advanceReadPositionFrom(position)` (fileringbuffer.py:408-419). */
  function AdvanceFromRing(s: Ring, p: int): Ring
    requires 0 <= p && p + ItemSizeLen <= |s.data|
  {
    var q := Hop(s.data, p);
    s.(read := if q >= s.Last() then HeaderLen else q)
  }

  /** `clear()` (fileringbuffer.py:422-430). */
  function ClearRing(s: Ring): Ring
  {
    Ring(Zeros(|s.data|), HeaderLen, HeaderLen)
  }
}
