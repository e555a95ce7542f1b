/** The queue a ring snapshot holds: the stored items from the read cursor to
    the write cursor, wrapping at the reserved last byte, and what each
    transition of `RingLayout` does to that queue. */
module RingQueue {
  import opened Common
  import opened RingLayout

  /** The bytes `[lo, hi)` are exactly a run of stored items. */
  predicate TilesOk(d: seq<byte>, lo: int, hi: int)
    decreases hi - lo
  {
    0 <= lo <= hi <= |d| &&
    (lo < hi ==>
      lo + ItemSizeLen <= hi && LenAt(d, lo) >= 0 && Hop(d, lo) <= hi && TilesOk(d, Hop(d, lo), hi))
  }

  /** The items stored in `[lo, hi)`, oldest first. */
  function Items(d: seq<byte>, lo: int, hi: int): seq<seq<byte>>
    requires TilesOk(d, lo, hi)
    decreases hi - lo
  {
    if lo == hi then [] else [d[lo + ItemSizeLen .. Hop(d, lo)]] + Items(d, Hop(d, lo), hi)
  }

  /** The region between the cursors is a run of items, wrapping once at the
      last byte when the reader is ahead of the writer. */
  predicate WellFormed(s: Ring)
  {
    s.Shaped() &&
    if s.read <= s.write then TilesOk(s.data, s.read, s.write)
    else
      TilesOk(s.data, s.read, s.Last()) && TilesOk(s.data, HeaderLen, s.write) &&
      (s.read == s.Last() ==> s.write != HeaderLen)
  }

  /** The unread items, oldest first. */
  function Contents(s: Ring): seq<seq<byte>>
    requires WellFormed(s)
  {
    if s.read <= s.write then Items(s.data, s.read, s.write)
    else Items(s.data, s.read, s.Last()) + Items(s.data, HeaderLen, s.write)
  }

  /** The queue of a snapshot whose reader is not ahead of the writer. */
  lemma BehindContents(s: Ring)
    requires WellFormed(s) && s.read <= s.write
    ensures Contents(s) == Items(s.data, s.read, s.write)
  {
  }

  /** The queue of a snapshot whose reader is ahead of the writer. */
  lemma AheadContents(s: Ring)
    requires WellFormed(s) && s.read > s.write
    ensures Contents(s) == Items(s.data, s.read, s.Last()) + Items(s.data, HeaderLen, s.write)
  {
  }

  /** A non-empty run starts with an item. */
  lemma TilesNonEmpty(d: seq<byte>, lo: int, hi: int)
    requires TilesOk(d, lo, hi)
    ensures |Items(d, lo, hi)| == 0 <==> lo == hi
  {
  }

  /** `empty()` holds exactly when there is nothing to read (fileringbuffer.py:187-189). */
  lemma EmptyIffNoContents(s: Ring)
    requires WellFormed(s)
    ensures s.Empty() <==> Contents(s) == []
  {
    if s.read > s.write {
      TilesNonEmpty(s.data, s.read, s.Last());
      TilesNonEmpty(s.data, HeaderLen, s.write);
    }
  }

  /** Two adjacent runs make one run holding the items of both. */
  lemma {:induction false} TilesAppend(d: seq<byte>, lo: int, mid: int, hi: int)
    requires TilesOk(d, lo, mid) && TilesOk(d, mid, hi)
    ensures TilesOk(d, lo, hi) && Items(d, lo, hi) == Items(d, lo, mid) + Items(d, mid, hi)
    decreases mid - lo
  {
    if lo < mid {
      TilesUnfold(d, lo, mid);
      var next := Hop(d, lo);
      TilesAppend(d, next, mid, hi);
      TilesFold(d, lo, hi);
      ConsAssoc(d[lo + ItemSizeLen .. next], Items(d, next, mid), Items(d, mid, hi));
    } else {
      assert Items(d, lo, mid) == [];
    }
  }

  /** Concatenation after a first element regroups freely. */
  lemma ConsAssoc<T>(x: T, a: seq<T>, b: seq<T>)
    ensures [x] + (a + b) == ([x] + a) + b
  {
  }

  /** Bytes outside `[lo, hi)` do not matter to the items stored there. */
  lemma {:induction false} TilesFrame(d: seq<byte>, e: seq<byte>, lo: int, hi: int)
    requires TilesOk(d, lo, hi) && hi <= |e| && e[lo..hi] == d[lo..hi]
    ensures TilesOk(e, lo, hi) && Items(e, lo, hi) == Items(d, lo, hi)
    decreases hi - lo
  {
    if lo < hi {
      TilesUnfold(d, lo, hi);
      var next := Hop(d, lo);
      SubSlice(d, e, lo, hi, lo, lo + ItemSizeLen);
      LenAtDecodes(d, lo);
      LenAtDecodes(e, lo);
      SubSlice(d, e, lo, hi, lo + ItemSizeLen, next);
      SubSlice(d, e, lo, hi, next, hi);
      TilesFrame(d, e, next, hi);
      TilesFold(e, lo, hi);
    } else {
      assert TilesOk(e, lo, lo);
    }
  }

  /** Equal windows agree on every window inside them. */
  lemma SubSlice(a: seq<byte>, b: seq<byte>, lo: int, hi: int, i: int, j: int)
    requires 0 <= lo <= i <= j <= hi <= |a| && hi <= |b| && a[lo..hi] == b[lo..hi]
    ensures a[i..j] == b[i..j]
  {
    forall k | i <= k < j
      ensures a[k] == b[k]
    {
      assert a[k] == a[lo..hi][k - lo] && b[k] == b[lo..hi][k - lo];
    }
  }

  /** Writing the length and the bytes of `item` at `p` stores exactly that item. */
  lemma WrittenTile(d: seq<byte>, p: int, item: seq<byte>)
    requires 0 <= p && p + ItemSizeLen + |item| <= |d| && |item| < 0x8000_0000
    ensures TilesOk(Store(d, p, item), p, p + ItemSizeLen + |item|)
    ensures Items(Store(d, p, item), p, p + ItemSizeLen + |item|) == [item]
    ensures Store(d, p, item)[..p] == d[..p]
    ensures Store(d, p, item)[p + ItemSizeLen + |item|..] == d[p + ItemSizeLen + |item|..]
  {
    var e := Store(d, p, item);
    var stop := p + ItemSizeLen + |item|;
    var b := EncodeI32(|item|) + item;
    OverwriteFacts(d, p, b);
    Window(e, p, stop, p, p + ItemSizeLen);
    assert b[.. ItemSizeLen] == EncodeI32(|item|);
    I32RoundTrip(|item|);
    LenAtDecodes(e, p);
    Window(e, p, stop, p + ItemSizeLen, stop);
    assert b[ItemSizeLen ..] == item;
    assert TilesOk(e, stop, stop) && Items(e, stop, stop) == [];
    TilesFold(e, p, stop);
  }

  /** A window of a window is a window. */
  lemma Window(a: seq<byte>, lo: int, hi: int, i: int, j: int)
    requires 0 <= lo <= i <= j <= hi <= |a|
    ensures a[i..j] == a[lo..hi][i - lo .. j - lo]
  {
    var w := a[lo..hi];
    assert forall k :: 0 <= k < j - i ==> a[i..j][k] == a[i + k] == w[i - lo + k];
  }

  /** Sequences that agree below `s` agree on every window there. */
  lemma PrefixWindow(a: seq<byte>, b: seq<byte>, s: int, i: int, j: int)
    requires 0 <= i <= j <= s <= |a| && s <= |b| && a[..s] == b[..s]
    ensures a[i..j] == b[i..j]
  {
    forall k | i <= k < j
      ensures a[k] == b[k]
    {
      assert a[k] == a[..s][k] && b[k] == b[..s][k];
    }
  }

  /** Sequences that agree from `s` on agree on every window there. */
  lemma SuffixWindow(a: seq<byte>, b: seq<byte>, s: int, i: int, j: int)
    requires 0 <= s <= i <= j <= |a| == |b| && a[s..] == b[s..]
    ensures a[i..j] == b[i..j]
  {
    forall k | i <= k < j
      ensures a[k] == b[k]
    {
      assert a[k] == a[s..][k - s] && b[k] == b[s..][k - s];
    }
  }

  /** A non-empty run is its first item followed by a run. */
  lemma TilesUnfold(d: seq<byte>, lo: int, hi: int)
    requires TilesOk(d, lo, hi) && lo < hi
    ensures lo + ItemSizeLen <= hi && LenAt(d, lo) >= 0 && Hop(d, lo) <= hi && TilesOk(d, Hop(d, lo), hi)
    ensures Items(d, lo, hi) == [d[lo + ItemSizeLen .. Hop(d, lo)]] + Items(d, Hop(d, lo), hi)
  {
  }

  /** An item followed by a run is a run. */
  lemma TilesFold(d: seq<byte>, lo: int, hi: int)
    requires 0 <= lo < hi <= |d| && lo + ItemSizeLen <= hi && LenAt(d, lo) >= 0 && Hop(d, lo) <= hi
    requires TilesOk(d, Hop(d, lo), hi)
    ensures TilesOk(d, lo, hi)
    ensures Items(d, lo, hi) == [d[lo + ItemSizeLen .. Hop(d, lo)]] + Items(d, Hop(d, lo), hi)
  {
  }

  /** The eviction walk of `put`, started on a run of items that reaches at
      least `w + size`, moves the reader item by item and stops at the first
      item boundary at or beyond `w + size`. */
  lemma EvictAlongTiles(d: seq<byte>, r: int, w: int, size: int, hi: int)
    requires TilesOk(d, r, hi) && hi <= |d| - 1 && w < r && w + size <= hi
    ensures EvictReadable(d, r, w, size)
    ensures r <= Evict(d, r, w, size) <= hi && Evict(d, r, w, size) >= w + size
    ensures TilesOk(d, r, Evict(d, r, w, size)) && TilesOk(d, Evict(d, r, w, size), hi)
    ensures Items(d, r, hi) == Items(d, r, Evict(d, r, w, size)) + Items(d, Evict(d, r, w, size), hi)
    ensures forall p :: r <= p < Evict(d, r, w, size) && TilesOk(d, r, p) ==> p < w + size
  {
    EvictWalk(d, r, w, size, hi);
    EvictStopsFirst(d, r, w, size, hi);
    TilesAppend(d, r, Evict(d, r, w, size), hi);
  }

  /** The bytes a run of items takes up, length fields included. */
  function Span(c: seq<seq<byte>>): nat
  {
    if c == [] then 0 else ItemSizeLen + |c[0]| + Span(c[1..])
  }

  /** A run from `lo` to `hi` spans exactly `hi - lo` bytes. */
  lemma {:induction false} TilesSpan(d: seq<byte>, lo: int, hi: int)
    requires TilesOk(d, lo, hi)
    ensures lo + Span(Items(d, lo, hi)) == hi
    decreases hi - lo
  {
    if lo < hi {
      TilesUnfold(d, lo, hi);
      TilesSpan(d, Hop(d, lo), hi);
      var c := Items(d, lo, hi);
      assert c[1..] == Items(d, Hop(d, lo), hi);
    }
  }

  /** The eviction walk stops at the first item boundary at or past
      `w + size`: every item it skips starts before that point. */
  lemma {:induction false} EvictStopsFirst(d: seq<byte>, r: int, w: int, size: int, hi: int)
    requires TilesOk(d, r, hi) && hi <= |d| - 1 && w < r && w + size <= hi
    ensures EvictReadable(d, r, w, size) && TilesOk(d, r, Evict(d, r, w, size))
    ensures forall p :: r <= p < Evict(d, r, w, size) && TilesOk(d, r, p) ==> p < w + size
    ensures var c := Items(d, r, Evict(d, r, w, size));
      c != [] ==> r + Span(c[..|c| - 1]) < w + size
    decreases hi - r
  {
    EvictWalk(d, r, w, size, hi);
    var e := Evict(d, r, w, size);
    if r - w < size {
      TilesUnfold(d, r, hi);
      var next := Hop(d, r);
      EvictStopsFirst(d, next, w, size, hi);
      assert e == Evict(d, next, w, size);
      forall p | r <= p < e && TilesOk(d, r, p)
        ensures p < w + size
      {
        if p > r {
          assert next <= p && TilesOk(d, next, p);
        }
      }
      var c := Items(d, r, e);
      var c' := Items(d, next, e);
      assert c == [d[r + ItemSizeLen .. next]] + c';
      if c' != [] {
        var init := c[..|c| - 1];
        assert init[0] == d[r + ItemSizeLen .. next];
        assert init[1..] == c'[..|c'| - 1];
      }
    }
  }

  lemma {:induction false} EvictWalk(d: seq<byte>, r: int, w: int, size: int, hi: int)
    requires TilesOk(d, r, hi) && hi <= |d| - 1 && w < r && w + size <= hi
    ensures EvictReadable(d, r, w, size)
    ensures r <= Evict(d, r, w, size) <= hi && Evict(d, r, w, size) >= w + size
    ensures TilesOk(d, r, Evict(d, r, w, size)) && TilesOk(d, Evict(d, r, w, size), hi)
    decreases hi - r
  {
    if r - w < size {
      TilesUnfold(d, r, hi);
      var next := Hop(d, r);
      EvictWalk(d, next, w, size, hi);
      var e := Evict(d, next, w, size);
      assert Evict(d, r, w, size) == e;
      TilesFoldOk(d, r, e);
    } else {
      assert Evict(d, r, w, size) == r;
      assert TilesOk(d, r, r);
    }
  }

  /** An item followed by a run is a run (the shape only). */
  lemma TilesFoldOk(d: seq<byte>, lo: int, hi: int)
    requires 0 <= lo < hi <= |d| && lo + ItemSizeLen <= hi && LenAt(d, lo) >= 0 && Hop(d, lo) <= hi
    requires TilesOk(d, Hop(d, lo), hi)
    ensures TilesOk(d, lo, hi)
  {
  }

  /** A wrapping put on a non-empty buffer finds the writer on the last byte,
      so no stale bytes are left between the last item and the end. */
  predicate NoEarlyWrap(s: Ring, n: nat)
  {
    !s.Empty() && Wraps(s, n) ==> s.write == s.Last()
  }

  /** The first `dropped` items of the queue are exactly those a new item
      ending at `stop` overlaps: together they reach at least to `stop`, and
      the last of them starts before it. */
  predicate DropsOverlapped(s: Ring, stop: int, dropped: nat)
    requires WellFormed(s) && dropped <= |Contents(s)|
  {
    stop <= s.read + Span(Contents(s)[..dropped]) &&
    (dropped > 0 ==> s.read + Span(Contents(s)[..dropped - 1]) < stop)
  }

  /** `put` keeps the queue shape; what it reads afterwards is a suffix of the
      old queue followed by the new item, unless the item ended exactly on the
      reader, in which case the buffer reads as empty (fileringbuffer.py:228-277). */
  lemma PutQueue(s: Ring, item: seq<byte>) returns (dropped: nat)
    requires WellFormed(s) && NoEarlyWrap(s, |item|)
    requires 3 <= |item| < 0x8000_0000 && ItemSizeLen + |item| <= s.Capacity()
    ensures PutReadable(s, |item|)
    ensures WellFormed(PutRing(s, item))
    ensures dropped <= |Contents(s)|
    ensures Contents(PutRing(s, item)) ==
      if PutRing(s, item).Empty() then [] else Contents(s)[dropped..] + [item]
    ensures s.read < PutSlot(s, |item|) ==> dropped == 0
    ensures s.read == PutSlot(s, |item|) ==> dropped == |Contents(s)|
    ensures !s.Empty() && s.read > PutSlot(s, |item|) ==>
      DropsOverlapped(s, PutSlot(s, |item|) + ItemSizeLen + |item|, dropped)
  {
    if s.Empty() {
      PutEmptyQueue(s, item);
      dropped := 0;
    } else if Wraps(s, |item|) {
      dropped := PutWrapQueue(s, item);
      assert PutSlot(s, |item|) == HeaderLen;
    } else {
      dropped := PutNoWrapQueue(s, item);
      assert PutSlot(s, |item|) == s.write;
    }
  }

  /** `PutQueue` on an empty buffer: there is nothing to drop. */
  lemma PutEmptyQueue(s: Ring, item: seq<byte>)
    requires WellFormed(s) && s.Empty()
    requires 3 <= |item| < 0x8000_0000 && ItemSizeLen + |item| <= s.Capacity()
    ensures PutReadable(s, |item|)
    ensures WellFormed(PutRing(s, item)) && !PutRing(s, item).Empty()
    ensures Contents(s) == [] && Contents(PutRing(s, item)) == [item]
    ensures s.read >= PutSlot(s, |item|)
  {
    PutIntoEmpty(s, item);
    EmptyIffNoContents(s);
  }

  /** `PutQueue` on a non-empty buffer when the item fits before the end. */
  lemma PutNoWrapQueue(s: Ring, item: seq<byte>) returns (dropped: nat)
    requires WellFormed(s) && !s.Empty() && !Wraps(s, |item|)
    requires 3 <= |item| < 0x8000_0000 && ItemSizeLen + |item| <= s.Capacity()
    ensures PutReadable(s, |item|)
    ensures WellFormed(PutRing(s, item))
    ensures dropped <= |Contents(s)|
    ensures Contents(PutRing(s, item)) ==
      if PutRing(s, item).Empty() then [] else Contents(s)[dropped..] + [item]
    ensures s.read < s.write ==> dropped == 0
    ensures s.read > s.write ==> DropsOverlapped(s, s.write + ItemSizeLen + |item|, dropped)
  {
    if s.read < s.write {
      PutBehindWriter(s, item);
      dropped := 0;
    } else {
      dropped := PutBeforeReader(s, item);
    }
  }

  /** `PutQueue` on a non-empty buffer when the writer wraps from the last
      byte. */
  lemma PutWrapQueue(s: Ring, item: seq<byte>) returns (dropped: nat)
    requires WellFormed(s) && !s.Empty() && Wraps(s, |item|) && NoEarlyWrap(s, |item|)
    requires 3 <= |item| < 0x8000_0000 && ItemSizeLen + |item| <= s.Capacity()
    ensures PutReadable(s, |item|)
    ensures WellFormed(PutRing(s, item))
    ensures dropped <= |Contents(s)|
    ensures Contents(PutRing(s, item)) ==
      if PutRing(s, item).Empty() then [] else Contents(s)[dropped..] + [item]
    ensures s.read == HeaderLen ==> dropped == |Contents(s)|
    ensures s.read > HeaderLen ==> DropsOverlapped(s, HeaderLen + ItemSizeLen + |item|, dropped)
  {
    if s.read == HeaderLen {
      PutWrapOntoReader(s, item);
      dropped := |Contents(s)|;
    } else {
      dropped := PutWrapBeforeReader(s, item);
    }
  }

  /** Storing `item` at the writer `w` of a run `[r, w)` extends the run by
      that item, whatever the bytes around it. */
  lemma AppendAt(d: seq<byte>, r: int, w: int, item: seq<byte>)
    requires TilesOk(d, r, w) && w + ItemSizeLen + |item| <= |d| && |item| < 0x8000_0000
    ensures TilesOk(Store(d, w, item), r, w + ItemSizeLen + |item|)
    ensures Items(Store(d, w, item), r, w + ItemSizeLen + |item|) == Items(d, r, w) + [item]
  {
    var e := Store(d, w, item);
    WrittenTile(d, w, item);
    PrefixWindow(e, d, w, r, w);
    TilesFrame(d, e, r, w);
    TilesAppend(e, r, w, w + ItemSizeLen + |item|);
  }

  /** The case of `put` on an empty buffer: the item is all there is. */
  lemma PutIntoEmpty(s: Ring, item: seq<byte>)
    requires WellFormed(s) && s.Empty()
    requires 3 <= |item| < 0x8000_0000 && ItemSizeLen + |item| <= s.Capacity()
    ensures PutReadable(s, |item|)
    ensures WellFormed(PutRing(s, item)) && !PutRing(s, item).Empty()
    ensures Contents(PutRing(s, item)) == [item]
  {
    var slot := PutSlot(s, |item|);
    assert PutReader(s, |item|) == slot;
    PutRingStores(s, item);
    AppendBehind(s.data, slot, slot, item);
  }

  /** The case of `put` where the item fits behind the writer and the reader
      is behind it too: nothing is evicted. */
  lemma PutBehindWriter(s: Ring, item: seq<byte>)
    requires WellFormed(s) && s.read < s.write && !Wraps(s, |item|)
    requires 3 <= |item| < 0x8000_0000 && ItemSizeLen + |item| <= s.Capacity()
    ensures PutReadable(s, |item|)
    ensures WellFormed(PutRing(s, item)) && !PutRing(s, item).Empty()
    ensures Contents(PutRing(s, item)) == Contents(s) + [item]
  {
    PutInPlace(s, item, s.read);
    AppendBehind(s.data, s.read, s.write, item);
  }

  /** Without a wrap, `put` stores the item at the writer and leaves the
      reader wherever the eviction walk from it stops. */
  lemma PutInPlace(s: Ring, item: seq<byte>, r': int)
    requires s.Shaped() && !s.Empty() && !Wraps(s, |item|)
    requires 3 <= |item| < 0x8000_0000 && ItemSizeLen + |item| <= s.Capacity()
    requires EvictReadable(s.data, s.read, s.write, ItemSizeLen + |item|)
    requires r' == Evict(s.data, s.read, s.write, ItemSizeLen + |item|)
    ensures PutReadable(s, |item|)
    ensures PutRing(s, item) == Placed(s.data, r', s.write, item)
  {
    assert WalkStart(s, |item|) == s.read && PutSlot(s, |item|) == s.write;
    PutRingStores(s, item);
  }

  /** Storing an item behind a reader that is behind the writer appends it. */
  /** A snapshot whose reader is behind its writer is well formed when the
      bytes between them are a run, and reads that run. */
  lemma SnapshotBehind(e: seq<byte>, r: int, w: int)
    requires |e| > HeaderLen && HeaderLen <= r <= w <= |e| - 1 && TilesOk(e, r, w)
    ensures WellFormed(Ring(e, r, w)) && Contents(Ring(e, r, w)) == Items(e, r, w)
  {
  }

  /** The case of `put` where the writer sits behind the reader: the reader is
      pushed past every item the new one overlaps. */
  lemma PutBeforeReader(s: Ring, item: seq<byte>) returns (dropped: nat)
    requires WellFormed(s) && s.read > s.write && !Wraps(s, |item|)
    requires 3 <= |item| < 0x8000_0000 && ItemSizeLen + |item| <= s.Capacity()
    ensures PutReadable(s, |item|)
    ensures WellFormed(PutRing(s, item))
    ensures dropped <= |Contents(s)|
    ensures s.write + ItemSizeLen + |item| <= s.read + Span(Contents(s)[..dropped])
    ensures dropped > 0 ==> s.read + Span(Contents(s)[..dropped - 1]) < s.write + ItemSizeLen + |item|
    ensures Contents(PutRing(s, item)) ==
      if PutRing(s, item).Empty() then [] else Contents(s)[dropped..] + [item]
  {
    var r';
    dropped, r' := EvictThenStore(s, item);
    PutInPlace(s, item, r');
  }

  /** Evicting from a reader ahead of the writer and storing the item at the
      writer: the result is well formed and reads the items left after the
      reader moved, then the new item, unless the item ended exactly on the
      reader. */
  lemma EvictThenStore(s: Ring, item: seq<byte>) returns (dropped: nat, r': int)
    requires WellFormed(s) && s.read > s.write && s.write + ItemSizeLen + |item| <= s.Last()
    requires 3 <= |item| < 0x8000_0000
    ensures EvictReadable(s.data, s.read, s.write, ItemSizeLen + |item|)
    ensures r' == Evict(s.data, s.read, s.write, ItemSizeLen + |item|)
    ensures s.write + ItemSizeLen + |item| <= r' <= s.Last()
    ensures WellFormed(Placed(s.data, r', s.write, item))
    ensures dropped <= |Contents(s)|
    ensures s.read + Span(Contents(s)[..dropped]) == r'
    ensures dropped > 0 ==> s.read + Span(Contents(s)[..dropped - 1]) < s.write + ItemSizeLen + |item|
    ensures Contents(Placed(s.data, r', s.write, item)) ==
      if r' == s.write + ItemSizeLen + |item| then [] else Contents(s)[dropped..] + [item]
  {
    dropped, r' := EvictThenStoreAt(s.data, s.read, s.write, item, Contents(s));
  }

  /** `EvictThenStore` on the bytes, with `all` the queue before the put. */
  lemma EvictThenStoreAt(d: seq<byte>, r: int, w: int, item: seq<byte>, all: seq<seq<byte>>)
    returns (dropped: nat, r': int)
    requires |d| > HeaderLen && HeaderLen <= w < r <= |d| - 1
    requires 3 <= |item| < 0x8000_0000 && w + ItemSizeLen + |item| <= |d| - 1
    requires TilesOk(d, r, |d| - 1) && TilesOk(d, HeaderLen, w)
    requires all == Items(d, r, |d| - 1) + Items(d, HeaderLen, w)
    ensures EvictReadable(d, r, w, ItemSizeLen + |item|)
    ensures r' == Evict(d, r, w, ItemSizeLen + |item|)
    ensures w + ItemSizeLen + |item| <= r' <= |d| - 1
    ensures WellFormed(Placed(d, r', w, item))
    ensures dropped <= |all|
    ensures r + Span(all[..dropped]) == r'
    ensures dropped > 0 ==> r + Span(all[..dropped - 1]) < w + ItemSizeLen + |item|
    ensures Contents(Placed(d, r', w, item)) ==
      if r' == w + ItemSizeLen + |item| then [] else all[dropped..] + [item]
  {
    dropped := EvictDrops(d, r, w, ItemSizeLen + |item|, all);
    r' := Evict(d, r, w, ItemSizeLen + |item|);
    RefillAfterEvict(d, r', |d| - 1, w, item);
  }

  /** The eviction walk from a reader ahead of `w` drops the first `dropped`
      items of the queue and leaves the reader on the start of the rest. */
  lemma EvictDrops(d: seq<byte>, r: int, w: int, size: int, all: seq<seq<byte>>) returns (dropped: nat)
    requires |d| > HeaderLen && HeaderLen <= w < r <= |d| - 1 && w + size <= |d| - 1
    requires TilesOk(d, r, |d| - 1) && TilesOk(d, HeaderLen, w)
    requires all == Items(d, r, |d| - 1) + Items(d, HeaderLen, w)
    ensures EvictReadable(d, r, w, size)
    ensures w + size <= Evict(d, r, w, size) <= |d| - 1
    ensures TilesOk(d, Evict(d, r, w, size), |d| - 1)
    ensures dropped <= |all|
    ensures all[dropped..] == Items(d, Evict(d, r, w, size), |d| - 1) + Items(d, HeaderLen, w)
    ensures r + Span(all[..dropped]) == Evict(d, r, w, size)
    ensures dropped > 0 ==> r + Span(all[..dropped - 1]) < w + size
  {
    var last := |d| - 1;
    EvictAlongTiles(d, r, w, size, last);
    EvictStopsFirst(d, r, w, size, last);
    var r' := Evict(d, r, w, size);
    var x := Items(d, r, r');
    dropped := |x|;
    DropFront(Items(d, r, last), x, Items(d, r', last), Items(d, HeaderLen, w));
    assert all[..dropped] == x;
    TilesSpan(d, r, r');
    if dropped > 0 {
      assert all[..dropped - 1] == x[..|x| - 1];
    }
  }

  /** Dropping the front `x` of `a == x + y` from `a + c` leaves `y + c`. */
  lemma DropFront<T>(a: seq<T>, x: seq<T>, y: seq<T>, c: seq<T>)
    requires a == x + y
    ensures |x| <= |a + c| && (a + c)[|x|..] == y + c
  {
    assert a + c == x + (y + c);
  }

  /** After eviction left the reader at `r'`, storing the item at `w` gives a
      well-formed snapshot reading the kept items and then the new one, or an
      empty one when the item ends exactly on the reader. */
  lemma RefillAfterEvict(d: seq<byte>, r': int, last: int, w: int, item: seq<byte>)
    requires |d| > HeaderLen && last == |d| - 1 && HeaderLen <= w && w + ItemSizeLen + |item| <= r' <= last
    requires TilesOk(d, r', last) && TilesOk(d, HeaderLen, w) && |item| < 0x8000_0000
    ensures WellFormed(Placed(d, r', w, item))
    ensures Contents(Placed(d, r', w, item)) ==
      if r' == w + ItemSizeLen + |item| then [] else Items(d, r', last) + Items(d, HeaderLen, w) + [item]
  {
    if r' > w + ItemSizeLen + |item| {
      StoreKeepsTiles(d, w, item, r', last);
      AppendAt(d, HeaderLen, w, item);
      RefillKeeps(d, r', last, w, item);
      SeqAssoc(Items(d, r', last), Items(d, HeaderLen, w), [item]);
    } else {
      SnapshotShape(Store(d, w, item), r', w + ItemSizeLen + |item|);
    }
  }

  lemma RefillKeeps(d: seq<byte>, r': int, last: int, w: int, item: seq<byte>)
    requires |d| > HeaderLen && last == |d| - 1 && HeaderLen <= w && w + ItemSizeLen + |item| < r' <= last
    requires |item| < 0x8000_0000
    requires TilesOk(Store(d, w, item), r', last) && TilesOk(Store(d, w, item), HeaderLen, w + ItemSizeLen + |item|)
    ensures WellFormed(Placed(d, r', w, item))
    ensures Contents(Placed(d, r', w, item)) ==
      Items(Store(d, w, item), r', last) + Items(Store(d, w, item), HeaderLen, w + ItemSizeLen + |item|)
  {
    SnapshotShape(Store(d, w, item), r', w + ItemSizeLen + |item|);
  }

  /** Concatenation regroups freely. */
  lemma SeqAssoc<T>(a: seq<T>, b: seq<T>, c: seq<T>)
    ensures a + (b + c) == a + b + c
  {
  }

  /** Storing an item in front of a run leaves that run as it was. */
  lemma StoreKeepsTiles(d: seq<byte>, w: int, item: seq<byte>, lo: int, hi: int)
    requires 0 <= w && w + ItemSizeLen + |item| <= lo && TilesOk(d, lo, hi) && |item| < 0x8000_0000
    ensures TilesOk(Store(d, w, item), lo, hi) && Items(Store(d, w, item), lo, hi) == Items(d, lo, hi)
  {
    var e := Store(d, w, item);
    var stop := w + ItemSizeLen + |item|;
    WrittenTile(d, w, item);
    SuffixWindow(e, d, stop, lo, hi);
    TilesFrame(d, e, lo, hi);
  }

  /** A snapshot whose reader is ahead of its writer is well formed when both
      runs are, and reads the run from the reader and then the run from
      `HeaderLen`; one whose cursors meet reads as empty. */
  lemma SnapshotShape(e: seq<byte>, r: int, w: int)
    requires |e| > HeaderLen && HeaderLen < w <= r <= |e| - 1
    requires r > w ==> TilesOk(e, r, |e| - 1) && TilesOk(e, HeaderLen, w)
    ensures WellFormed(Ring(e, r, w))
    ensures r > w ==> Contents(Ring(e, r, w)) == Items(e, r, |e| - 1) + Items(e, HeaderLen, w)
    ensures r == w ==> Contents(Ring(e, r, w)) == []
  {
    assert TilesOk(e, r, r) && Items(e, r, r) == [];
  }

  /** The case of `put` where the writer wraps onto a reader at `HeaderLen`:
      the item ends exactly where the old tail did, so only it is left. */
  lemma PutWrapOntoReader(s: Ring, item: seq<byte>)
    requires WellFormed(s) && !s.Empty() && Wraps(s, |item|) && s.write == s.Last() && s.read == HeaderLen
    requires 3 <= |item| < 0x8000_0000 && ItemSizeLen + |item| <= s.Capacity()
    ensures PutReadable(s, |item|)
    ensures WellFormed(PutRing(s, item)) && !PutRing(s, item).Empty()
    ensures Contents(PutRing(s, item)) == [item]
  {
    var size := ItemSizeLen + |item|;
    WrittenTile(s.data, HeaderLen, item);
    assert Evict(s.data, HeaderLen, HeaderLen, size) == HeaderLen;
  }

  /** The case of `put` where the writer wraps to `HeaderLen` behind a reader
      that is ahead of it: the reader is pushed past every item the new one
      overlaps. */
  lemma PutWrapBeforeReader(s: Ring, item: seq<byte>) returns (dropped: nat)
    requires WellFormed(s) && !s.Empty() && Wraps(s, |item|) && s.write == s.Last() && s.read > HeaderLen
    requires 3 <= |item| < 0x8000_0000 && ItemSizeLen + |item| <= s.Capacity()
    ensures PutReadable(s, |item|)
    ensures WellFormed(PutRing(s, item))
    ensures dropped <= |Contents(s)|
    ensures HeaderLen + ItemSizeLen + |item| <= s.read + Span(Contents(s)[..dropped])
    ensures dropped > 0 ==> s.read + Span(Contents(s)[..dropped - 1]) < HeaderLen + ItemSizeLen + |item|
    ensures Contents(PutRing(s, item)) ==
      if PutRing(s, item).Empty() then [] else Contents(s)[dropped..] + [item]
  {
    WrapView(s);
    var r';
    dropped, r' := EvictThenStore(Ring(s.data, s.read, HeaderLen), item);
    PutWrapped(s, item, r');
  }

  /** A snapshot whose writer sits on the last byte reads the same as one
      whose writer has wrapped to `HeaderLen`. */
  lemma WrapView(s: Ring)
    requires WellFormed(s) && !s.Empty() && s.write == s.Last() && s.read > HeaderLen
    ensures WellFormed(Ring(s.data, s.read, HeaderLen)) && s.read > HeaderLen
    ensures Contents(Ring(s.data, s.read, HeaderLen)) == Contents(s)
  {
    var d := s.data;
    assert TilesOk(d, HeaderLen, HeaderLen) && Items(d, HeaderLen, HeaderLen) == [];
    assert Items(d, s.read, s.Last()) + [] == Items(d, s.read, s.Last());
  }

  /** When the writer wraps behind a reader that is behind it, `put` stores
      the item at `HeaderLen` and leaves the reader wherever the eviction walk
      from it stops. */
  lemma PutWrapped(s: Ring, item: seq<byte>, r': int)
    requires s.Shaped() && s.read < s.write && Wraps(s, |item|)
    requires 3 <= |item| < 0x8000_0000 && ItemSizeLen + |item| <= s.Capacity()
    requires EvictReadable(s.data, s.read, HeaderLen, ItemSizeLen + |item|)
    requires r' == Evict(s.data, s.read, HeaderLen, ItemSizeLen + |item|)
    ensures PutReadable(s, |item|)
    ensures PutRing(s, item) == Placed(s.data, r', HeaderLen, item)
  {
    assert WalkStart(s, |item|) == s.read && PutSlot(s, |item|) == HeaderLen;
    PutRingStores(s, item);
  }
  /** Storing an item at the writer of a run behind which the reader sits
      appends that item to what the snapshot reads. */
  lemma AppendBehind(d: seq<byte>, r: int, w: int, item: seq<byte>)
    requires |d| > HeaderLen && HeaderLen <= r <= w && w + ItemSizeLen + |item| < |d|
    requires TilesOk(d, r, w) && |item| < 0x8000_0000
    ensures WellFormed(Placed(d, r, w, item))
    ensures Contents(Placed(d, r, w, item)) == Items(d, r, w) + [item]
  {
    AppendAt(d, r, w, item);
    PlacedBehind(d, r, w, item);
  }

  /** A placed item that completes a run from the reader is read as that run. */
  lemma PlacedBehind(d: seq<byte>, r: int, w: int, item: seq<byte>)
    requires |d| > HeaderLen && HeaderLen <= r <= w && w + ItemSizeLen + |item| < |d|
    requires |item| < 0x8000_0000
    requires TilesOk(Store(d, w, item), r, w + ItemSizeLen + |item|)
    ensures WellFormed(Placed(d, r, w, item))
    ensures Contents(Placed(d, r, w, item)) == Items(Store(d, w, item), r, w + ItemSizeLen + |item|)
  {
    SnapshotBehind(Store(d, w, item), r, w + ItemSizeLen + |item|);
  }

}
