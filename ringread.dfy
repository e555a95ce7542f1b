/** What the reading and cursor-moving transitions of `RingLayout` do to the
    queue a well-formed snapshot holds. */
module RingRead {
  import opened Common
  import opened RingLayout
  import opened RingQueue

  /** What `_readItemAtPosition` hands back for a stored item it reads whole:
      an empty item reads as `None` (its length is not positive). */
  function Returned(item: seq<byte>): (r: Option<seq<byte>>)
    ensures r.Some? <==> |item| > 0
    ensures r.Some? ==> r.value == item
  {
    if |item| == 0 then None else Some(item)
  }

  /** Reading at the start of a run, with a `max_len` the first item fits in,
      returns that item and leaves the file position just past it
      (fileringbuffer.py:321-339). */
  lemma ReadStored(d: seq<byte>, p: int, hi: int, maxLen: nat)
    requires TilesOk(d, p, hi) && p < hi <= |d| - 1
    requires |Items(d, p, hi)[0]| <= maxLen
    ensures ReadItemAt(d, p, maxLen) == Read(Returned(Items(d, p, hi)[0]), Hop(d, p))
  {
    TilesUnfold(d, p, hi);
  }

  /** `get` on a buffer whose reader is not on the last byte returns the
      oldest item and leaves exactly the items after it; when the reader
      reaches the last byte it wraps to `HeaderLen`, and a writer on the last
      byte wraps with it (fileringbuffer.py:285-307). */
  lemma GetQueue(s: Ring)
    requires WellFormed(s) && Contents(s) != [] && s.read < s.Last()
    requires |Contents(s)[0]| <= DefaultMaxLen
    ensures GetRing(s).1 == Done(Returned(Contents(s)[0]))
    ensures WellFormed(GetRing(s).0)
    ensures Contents(GetRing(s).0) == Contents(s)[1..]
  {
    if s.read < s.write {
      GetBehind(s);
    } else {
      GetAhead(s);
    }
  }

  /** The case of `get` where the reader is behind the writer. */
  lemma GetBehind(s: Ring)
    requires WellFormed(s) && s.read < s.write && s.read < s.Last()
    requires |Items(s.data, s.read, s.write)[0]| <= DefaultMaxLen
    ensures GetRing(s).1 == Done(Returned(Items(s.data, s.read, s.write)[0]))
    ensures WellFormed(GetRing(s).0)
    ensures Contents(GetRing(s).0) == Items(s.data, s.read, s.write)[1..]
  {
    var d, r, w := s.data, s.read, s.write;
    ReadStored(d, r, w, DefaultMaxLen);
    TilesUnfold(d, r, w);
    if Hop(d, r) >= s.Last() {
      assert Items(d, w, w) == [];
    }
  }

  /** The case of `get` where the reader is ahead of the writer. */
  lemma GetAhead(s: Ring)
    requires WellFormed(s) && s.read > s.write && s.read < s.Last()
    requires |Items(s.data, s.read, s.Last())[0]| <= DefaultMaxLen
    ensures GetRing(s).1 == Done(Returned(Items(s.data, s.read, s.Last())[0]))
    ensures WellFormed(GetRing(s).0)
    ensures Contents(GetRing(s).0) == (Items(s.data, s.read, s.Last()) + Items(s.data, HeaderLen, s.write))[1..]
  {
    ReadStored(s.data, s.read, s.Last(), DefaultMaxLen);
    PopAhead(s.data, s.read, s.write);
  }

  /** Past the oldest item of a run from a reader ahead of the writer `w`,
      the reader (wrapped to `HeaderLen` at the last byte) reads the rest. */
  lemma PopAhead(d: seq<byte>, r: int, w: int)
    requires |d| > HeaderLen && HeaderLen <= w < r < |d| - 1
    requires TilesOk(d, r, |d| - 1) && TilesOk(d, HeaderLen, w)
    ensures 0 <= r && r + ItemSizeLen <= |d| && r < Hop(d, r) <= |d| - 1
    ensures WellFormed(Ring(d, if Hop(d, r) >= |d| - 1 then HeaderLen else Hop(d, r), w))
    ensures Contents(Ring(d, if Hop(d, r) >= |d| - 1 then HeaderLen else Hop(d, r), w)) ==
      (Items(d, r, |d| - 1) + Items(d, HeaderLen, w))[1..]
  {
    var last := |d| - 1;
    TilesUnfold(d, r, last);
    var rest := Items(d, Hop(d, r), last);
    DropFront(Items(d, r, last), [d[r + ItemSizeLen .. Hop(d, r)]], rest, Items(d, HeaderLen, w));
    if Hop(d, r) >= last {
      assert rest == [];
      PopWrapped(d, w);
    } else {
      PopStep(d, Hop(d, r), w);
    }
  }

  /** A reader wrapped to `HeaderLen` reads the run up to the writer. */
  lemma PopWrapped(d: seq<byte>, w: int)
    requires |d| > HeaderLen && HeaderLen <= w < |d| - 1 && TilesOk(d, HeaderLen, w)
    ensures WellFormed(Ring(d, HeaderLen, w)) && Contents(Ring(d, HeaderLen, w)) == Items(d, HeaderLen, w)
  {
  }

  /** A reader still ahead of the writer reads its run and then the writer's. */
  lemma PopStep(d: seq<byte>, r: int, w: int)
    requires |d| > HeaderLen && HeaderLen <= w < r < |d| - 1
    requires TilesOk(d, r, |d| - 1) && TilesOk(d, HeaderLen, w)
    ensures WellFormed(Ring(d, r, w))
    ensures Contents(Ring(d, r, w)) == Items(d, r, |d| - 1) + Items(d, HeaderLen, w)
  {
    assert WellFormed(Ring(d, r, w));
    AheadContents(Ring(d, r, w));
  }

  /** `peek` on a non-empty buffer returns the oldest item and keeps the
      queue; only a reader stuck on the last byte moves, to `HeaderLen`
      (fileringbuffer.py:342-367). */
  lemma PeekQueue(s: Ring)
    requires WellFormed(s) && Contents(s) != [] && |Contents(s)[0]| <= DefaultMaxLen
    ensures PeekRing(s).1 == Done(Returned(Contents(s)[0]))
    ensures WellFormed(PeekRing(s).0) && Contents(PeekRing(s).0) == Contents(s)
    ensures s.read < s.Last() ==> PeekRing(s).0 == s
  {
    var d, r, w := s.data, s.read, s.write;
    EmptyIffNoContents(s);
    if r == s.Last() {
      assert Items(d, r, r) == [];
      assert Contents(s) == Items(d, HeaderLen, w);
      ReadStored(d, HeaderLen, w, DefaultMaxLen);
    } else if r < w {
      ReadStored(d, r, w, DefaultMaxLen);
    } else {
      ReadStored(d, r, s.Last(), DefaultMaxLen);
    }
  }

  /** `peek` on an empty buffer returns `None` and changes nothing
      (fileringbuffer.py:350-351). */
  lemma PeekEmpty(s: Ring)
    requires s.Shaped() && s.Empty()
    ensures PeekRing(s) == (s, Done(None))
  {
  }

  /** Peeking twice returns the same as peeking once. */
  lemma PeekTwice(s: Ring)
    requires s.Shaped()
    ensures PeekRing(s).0.Shaped()
    ensures PeekRing(PeekRing(s).0) == PeekRing(s)
  {
  }

  /** Right after a `put` of an item, `peekLast` with the item's length as
      block size reads that item back (fileringbuffer.py:370-380). */
  lemma PeekLastAfterPut(s: Ring, item: seq<byte>)
    requires s.Shaped() && PutReadable(s, |item|)
    requires 3 <= |item| < 0x8000_0000 && ItemSizeLen + |item| <= s.Capacity()
    ensures PeekLastRing(PutRing(s, item), |item|) == Done(Some(item))
  {
    var p := PutSlot(s, |item|);
    var stop := p + ItemSizeLen + |item|;
    PutRingStores(s, item);
    WrittenTile(s.data, p, item);
    ReadStored(Store(s.data, p, item), p, stop, |item|);
  }

  /** `advanceReadPositionFrom(read_position)` moves the reader exactly as
      `get` does when the item fits `max_len` and the writer is not on the
      last byte (fileringbuffer.py:408-419). */
  lemma AdvanceLikeGet(s: Ring)
    requires WellFormed(s) && Contents(s) != [] && s.read < s.Last() && s.write < s.Last()
    requires |Contents(s)[0]| <= DefaultMaxLen
    ensures s.read + ItemSizeLen <= |s.data|
    ensures AdvanceFromRing(s, s.read) == GetRing(s).0
  {
    var d, r, w := s.data, s.read, s.write;
    EmptyIffNoContents(s);
    if r < w {
      ReadStored(d, r, w, DefaultMaxLen);
    } else {
      ReadStored(d, r, s.Last(), DefaultMaxLen);
    }
  }

  /** An oldest item longer than `max_len` is read only in part: `get`
      returns its first `DefaultMaxLen` bytes and leaves the reader inside
      the item, at the file position after them, while
      `advanceReadPositionFrom` skips the whole item
      (fileringbuffer.py:296-303, 330-336, 408-419). */
  lemma GetLongItem(s: Ring)
    requires WellFormed(s) && Contents(s) != [] && s.read < s.Last()
    requires |Contents(s)[0]| > DefaultMaxLen
    ensures s.read + ItemSizeLen <= |s.data|
    ensures GetRing(s).1 == Done(Some(Contents(s)[0][..DefaultMaxLen]))
    ensures GetRing(s).0.read == s.read + ItemSizeLen + DefaultMaxLen < Hop(s.data, s.read)
    ensures AdvanceFromRing(s, s.read).read != GetRing(s).0.read
  {
    var d, r := s.data, s.read;
    EmptyIffNoContents(s);
    var hi := if r < s.write then s.write else s.Last();
    TilesUnfold(d, r, hi);
    assert Contents(s)[0] == d[r + ItemSizeLen .. Hop(d, r)];
    assert LenAt(d, r) > DefaultMaxLen && r + ItemSizeLen + DefaultMaxLen < Hop(d, r) <= |d|;
    assert ReadItemAt(d, r, DefaultMaxLen) == Read(Some(d[r + ItemSizeLen .. r + ItemSizeLen + DefaultMaxLen]), r + ItemSizeLen + DefaultMaxLen);
    assert d[r + ItemSizeLen .. Hop(d, r)][..DefaultMaxLen] == d[r + ItemSizeLen .. r + ItemSizeLen + DefaultMaxLen];
  }

  /** Unlike `get`, `advanceReadPositionFrom` never moves the writer: past the
      only item of a buffer whose writer sits on the last byte, the reader
      wraps to `HeaderLen` and the buffer no longer reads as empty, while
      `get` empties it (fileringbuffer.py:296-297, 414-416). */
  lemma AdvanceAtEnd(s: Ring)
    requires WellFormed(s) && s.read < s.write == s.Last() && |Contents(s)| == 1
    requires |Contents(s)[0]| <= DefaultMaxLen
    ensures s.read + ItemSizeLen <= |s.data|
    ensures AdvanceFromRing(s, s.read) == Ring(s.data, HeaderLen, s.Last())
    ensures !AdvanceFromRing(s, s.read).Empty() && GetRing(s).0.Empty()
  {
    var d, r := s.data, s.read;
    TilesUnfold(d, r, s.Last());
    TilesNonEmpty(d, Hop(d, r), s.Last());
    ReadStored(d, r, s.Last(), DefaultMaxLen);
  }

  /** `clear` leaves an empty, well-formed buffer of zero bytes
      (fileringbuffer.py:422-430). */
  lemma ClearEmpties(s: Ring)
    requires |s.data| > HeaderLen
    ensures WellFormed(ClearRing(s)) && Contents(ClearRing(s)) == []
    ensures |ClearRing(s).data| == |s.data| && forall i :: 0 <= i < |s.data| ==> ClearRing(s).data[i] == 0
  {
    assert TilesOk(ClearRing(s).data, HeaderLen, HeaderLen);
  }

  /** A `put` whose item ends exactly on a reader ahead of the writer makes
      the cursors equal: the buffer then reads as empty although it held
      items, because `_reader_needs_advancing` compares with a strict `<`
      (fileringbuffer.py:201-208, 254-255). */
  lemma PutOntoReaderEmpties(s: Ring, item: seq<byte>)
    requires WellFormed(s) && s.read > s.write && !Wraps(s, |item|)
    requires 3 <= |item| < 0x8000_0000 && s.write + ItemSizeLen + |item| == s.read
    ensures Contents(s) != [] && ItemSizeLen + |item| <= s.Capacity()
    ensures PutReadable(s, |item|) && PutRing(s, item).Empty()
  {
    EmptyIffNoContents(s);
    assert Evict(s.data, s.read, s.write, ItemSizeLen + |item|) == s.read;
    PutInPlace(s, item, s.read);
  }
}
