/** The shape the event log keeps its ring buffer in: every stored item is
    one event block, so the items tile the data region in slots of
    `ItemSizeLen + EventLogBlockSize` bytes and both cursors sit on slot
    boundaries. The lemmas here show that this shape rules out the
    unreadable lengths and the early wrap the general `put` proofs exclude,
    that `put`, `get` and `peek` keep it, and exactly what a `put` does to a
    log at each fill level. */
module EventGrid {
  import opened Common
  import opened Config
  import opened RingLayout
  import opened RingQueue
  import opened RingRead

  /** Bytes one stored event takes: its length field and its block, 22.
      Products with a count are written with the literal 22, which keeps
      them linear for the solver. */
  const Slot := ItemSizeLen + EventLogBlockSize

  /** The capacity the event log opens its buffer with (eventlog.py:34). */
  const LogCapacity := EventLogMaxEvents * Slot

  /** `p` is a slot boundary of the data region. */
  predicate OnGrid(p: int)
  {
    HeaderLen <= p && (p - HeaderLen) % Slot == 0
  }

  /** The bytes `[lo, hi)` are a run of stored event blocks: every length
      field reads `EventLogBlockSize`. */
  predicate Slotted(d: seq<byte>, lo: int, hi: int)
    decreases hi - lo
  {
    0 <= lo <= hi <= |d| &&
    (lo < hi ==> lo + Slot <= hi && LenAt(d, lo) == EventLogBlockSize && Slotted(d, lo + Slot, hi))
  }

  /** The event log's buffer: sized for `EventLogMaxEvents` events, both
      cursors on slot boundaries, the reader never on the last byte, and the
      bytes between the cursors a run of event blocks. */
  predicate Gridded(s: Ring)
  {
    |s.data| == BufferSize(LogCapacity) &&
    OnGrid(s.read) && OnGrid(s.write) && s.read < s.Last() && s.write <= s.Last() &&
    if s.read <= s.write then Slotted(s.data, s.read, s.write)
    else Slotted(s.data, s.read, s.Last()) && Slotted(s.data, HeaderLen, s.write)
  }

  /** The bytes between the cursors, wrapping at the last byte. */
  function Span(s: Ring): int
  {
    if s.read <= s.write then s.write - s.read else (s.Last() - s.read) + (s.write - HeaderLen)
  }

  /** Two distinct slot boundaries are at least a slot apart. */
  lemma GridGap(a: int, b: int)
    requires OnGrid(a) && OnGrid(b) && a > b
    ensures a - b >= Slot
  {
    var i, j := (a - HeaderLen) / Slot, (b - HeaderLen) / Slot;
    assert a == HeaderLen + 22 * i && b == HeaderLen + 22 * j;
    assert i > j;
  }

  /** The slot boundaries of the region that leave room for one more event
      all lie below the last slot. */
  lemma GridRoom(w: int)
    requires OnGrid(w) && w <= HeaderLen + LogCapacity
    ensures w + Slot + 1 > BufferSize(LogCapacity) ==> w == HeaderLen + LogCapacity
  {
    if w < HeaderLen + LogCapacity {
      GridGap(HeaderLen + LogCapacity, w);
    }
  }

  /** A run of event blocks is a run of items, a slot per item, each
      `EventLogBlockSize` bytes long. */
  lemma {:induction false} SlottedTiles(d: seq<byte>, lo: int, hi: int)
    requires Slotted(d, lo, hi)
    ensures TilesOk(d, lo, hi) && hi - lo == 22 * |Items(d, lo, hi)|
    ensures lo < hi ==> |Items(d, lo, hi)[0]| == EventLogBlockSize
    decreases hi - lo
  {
    if lo < hi {
      SlottedTiles(d, lo + Slot, hi);
      TilesFold(d, lo, hi);
    }
  }

  /** A gridded buffer holds a well-formed queue of event blocks, one per
      slot between the cursors, so never more than `EventLogMaxEvents`. */
  lemma GridQueue(s: Ring)
    requires Gridded(s)
    ensures WellFormed(s)
    ensures 22 * |Contents(s)| == Span(s) && |Contents(s)| <= EventLogMaxEvents
    ensures Contents(s) != [] ==> |Contents(s)[0]| == EventLogBlockSize
  {
    var d, r, w := s.data, s.read, s.write;
    if r <= w {
      SlottedTiles(d, r, w);
      assert WellFormed(s);
      BehindContents(s);
    } else {
      SlottedTiles(d, r, s.Last());
      SlottedTiles(d, HeaderLen, w);
      assert WellFormed(s);
      AheadContents(s);
    }
  }

  /** Rewriting bytes outside a run of event blocks keeps it. */
  lemma {:induction false} SlottedFrame(d: seq<byte>, e: seq<byte>, lo: int, hi: int)
    requires Slotted(d, lo, hi) && hi <= |e| && e[lo..hi] == d[lo..hi]
    ensures Slotted(e, lo, hi)
    decreases hi - lo
  {
    if lo < hi {
      SubSlice(d, e, lo, hi, lo, lo + ItemSizeLen);
      LenAtDecodes(d, lo);
      LenAtDecodes(e, lo);
      SubSlice(d, e, lo, hi, lo + Slot, hi);
      SlottedFrame(d, e, lo + Slot, hi);
    }
  }

  /** An event block stored at the end of a run extends it by one slot. */
  lemma {:induction false} SlottedAppend(e: seq<byte>, lo: int, w: int)
    requires Slotted(e, lo, w) && w + Slot <= |e| && LenAt(e, w) == EventLogBlockSize
    ensures Slotted(e, lo, w + Slot)
    decreases w - lo
  {
    if lo < w {
      SlottedAppend(e, lo + Slot, w);
    } else {
      assert Slotted(e, w + Slot, w + Slot);
    }
  }

  /** Storing an event block writes its length field and nothing outside
      its slot. */
  lemma NewSlot(d: seq<byte>, p: int, item: seq<byte>)
    requires 0 <= p && p + Slot <= |d| && |item| == EventLogBlockSize
    ensures LenAt(Store(d, p, item), p) == EventLogBlockSize
    ensures Store(d, p, item)[..p] == d[..p]
    ensures Store(d, p, item)[p + Slot..] == d[p + Slot..]
  {
    WrittenTile(d, p, item);
    TilesUnfold(Store(d, p, item), p, p + Slot);
  }

  /** The next slot boundary. */
  lemma GridNext(p: int)
    requires OnGrid(p)
    ensures OnGrid(p + Slot)
  {
    var i := (p - HeaderLen) / Slot;
    assert p + Slot - HeaderLen == 22 * (i + 1);
  }

  /** Storing an event block in the slot at `w`, with the reader at `r`,
      leaves a gridded buffer, whether the reader is behind the slot or
      ahead of it. */
  lemma GridPlaced(d: seq<byte>, r: int, w: int, item: seq<byte>)
    requires |d| == BufferSize(LogCapacity) && |item| == EventLogBlockSize
    requires OnGrid(r) && OnGrid(w) && r < |d| - 1 && w + Slot <= |d| - 1
    requires r <= w ==> Slotted(d, r, w)
    requires r > w ==> Slotted(d, r, |d| - 1) && Slotted(d, HeaderLen, w)
    ensures Gridded(Placed(d, r, w, item))
  {
    var e := Store(d, w, item);
    NewSlot(d, w, item);
    GridNext(w);
    if r <= w {
      PrefixWindow(e, d, w, r, w);
      SlottedFrame(d, e, r, w);
      SlottedAppend(e, r, w);
    } else {
      GridGap(r, w);
      if r > w + Slot {
        KeptAhead(d, e, r, w);
      }
    }
  }

  /** The runs of a reader still ahead of the stored slot survive the store. */
  lemma KeptAhead(d: seq<byte>, e: seq<byte>, r: int, w: int)
    requires |e| == |d| && HeaderLen <= w && w + Slot < r <= |d| - 1
    requires e[..w] == d[..w] && e[w + Slot..] == d[w + Slot..] && LenAt(e, w) == EventLogBlockSize
    requires Slotted(d, r, |d| - 1) && Slotted(d, HeaderLen, w)
    ensures Slotted(e, r, |e| - 1) && Slotted(e, HeaderLen, w + Slot)
  {
    var last := |d| - 1;
    SuffixWindow(e, d, w + Slot, r, last);
    SlottedFrame(d, e, r, last);
    PrefixWindow(e, d, w, HeaderLen, w);
    SlottedFrame(d, e, HeaderLen, w);
    SlottedAppend(e, HeaderLen, w);
  }

  /** On a gridded buffer `put` of an event block never evicts: it stores
      the block in the writer's slot, or in the first slot when the writer
      is on the last byte, and leaves the reader where it is. */
  lemma GridPutPlaced(s: Ring, item: seq<byte>)
    requires Gridded(s) && |item| == EventLogBlockSize
    ensures NoEarlyWrap(s, |item|) && PutReadable(s, |item|)
    ensures PutSlot(s, |item|) == (if s.write == s.Last() then HeaderLen else s.write)
    ensures PutRing(s, item) == Placed(s.data, s.read, PutSlot(s, |item|), item)
    ensures Gridded(PutRing(s, item))
  {
    var d, r, w, n := s.data, s.read, s.write, |item|;
    GridRoom(w);
    var slot := PutSlot(s, n);
    if r > slot {
      GridGap(r, slot);
    }
    assert !NeedsAdvancing(r, slot, ItemSizeLen + n);
    assert EvictReadable(d, r, slot, ItemSizeLen + n);
    assert Evict(d, r, slot, ItemSizeLen + n) == r;
    PutRingStores(s, item);
    if w == s.Last() {
      GridPlaced(d, r, HeaderLen, item);
    } else {
      GridPlaced(d, r, w, item);
    }
  }

  /** What `put` of an event block does to the events a gridded log holds:
      below `EventLogMaxEvents - 1` events it appends; a log one short of
      full keeps its events only when its reader is on the first slot, and
      otherwise the writer lands on the reader and the log reads as empty;
      a full log keeps only the new block, because the wrapped writer meets
      the reader on the first slot and the reader is not advanced
      (fileringbuffer.py:201-208, 240-255). */
  lemma GridPut(s: Ring, item: seq<byte>)
    requires Gridded(s) && |item| == EventLogBlockSize
    ensures PutReadable(s, |item|) && Gridded(PutRing(s, item))
    ensures WellFormed(s) && WellFormed(PutRing(s, item))
    ensures |Contents(s)| < EventLogMaxEvents - 1 ==> Contents(PutRing(s, item)) == Contents(s) + [item]
    ensures |Contents(s)| == EventLogMaxEvents - 1 ==>
      Contents(PutRing(s, item)) == if s.read == HeaderLen then Contents(s) + [item] else []
    ensures |Contents(s)| == EventLogMaxEvents ==> Contents(PutRing(s, item)) == [item]
  {
    GridPutPlaced(s, item);
    var t := PutRing(s, item);
    GridQueue(s);
    GridQueue(t);
    var dropped := PutQueue(s, item);
    var c, c' := Contents(s), Contents(t);
    if !t.Empty() {
      assert c' == c[dropped..] + [item];
      if |c'| == |c| + 1 {
        assert c[dropped..] == c;
      } else if |c'| == 1 {
        assert c[dropped..] == [];
      }
    }
  }

  /** `get` on a non-empty gridded log returns its oldest event block and
      leaves the others, in a gridded buffer (fileringbuffer.py:285-307). */
  lemma GridGet(s: Ring)
    requires Gridded(s) && !s.Empty()
    ensures WellFormed(s) && Contents(s) != [] && |Contents(s)[0]| == EventLogBlockSize
    ensures GetRing(s).1 == Done(Some(Contents(s)[0]))
    ensures Gridded(GetRing(s).0) && WellFormed(GetRing(s).0)
    ensures Contents(GetRing(s).0) == Contents(s)[1..]
  {
    GridQueue(s);
    EmptyIffNoContents(s);
    GetQueue(s);
    GridAfterGet(s);
  }

  /** The reader of a gridded log moves one slot on, wrapping to the first
      slot at the last byte, and the buffer stays gridded. */
  lemma GridAfterGet(s: Ring)
    requires Gridded(s) && !s.Empty()
    ensures Gridded(GetRing(s).0)
    ensures GetRing(s).0.read == if s.read + Slot >= s.Last() then HeaderLen else s.read + Slot
  {
    var d, r, w := s.data, s.read, s.write;
    var hi := if r < w then w else s.Last();
    assert Slotted(d, r, hi);
    assert LenAt(d, r) == EventLogBlockSize && Slotted(d, r + Slot, hi);
    assert ReadItemAt(d, r, DefaultMaxLen).tell == r + Slot;
    GridNext(r);
  }

  /** `peek` on a gridded log returns its oldest event block, or `None` when
      it is empty, and changes nothing (fileringbuffer.py:342-367). */
  lemma GridPeek(s: Ring)
    requires Gridded(s)
    ensures WellFormed(s)
    ensures PeekRing(s).0 == s
    ensures PeekRing(s).1 == Done(if s.Empty() then None else Some(Contents(s)[0]))
  {
    GridQueue(s);
    EmptyIffNoContents(s);
    if !s.Empty() {
      PeekQueue(s);
    }
  }

  /** `peekLast(EventLogBlockSize)` on a gridded log reads the slot before
      the writer, or the last slot when the writer is on the first one, and
      never raises (fileringbuffer.py:370-380). */
  lemma GridPeekLast(s: Ring)
    requires Gridded(s)
    ensures PeekLastPos(s, EventLogBlockSize) == (if s.write == HeaderLen then s.Last() else s.write) - Slot
    ensures PeekLastRing(s, EventLogBlockSize).Done?
  {
  }

  /** A buffer whose cursors both sit on the first slot is gridded, whatever
      its bytes. */
  lemma GridStart(d: seq<byte>)
    requires |d| == BufferSize(LogCapacity)
    ensures Gridded(Ring(d, HeaderLen, HeaderLen))
  {
    assert Slotted(d, HeaderLen, HeaderLen);
  }
}
