/** The file ring buffer as the object the source keeps: the file region as
    a byte array written in place, the two in-memory cursors, and the
    key-value store (`pycom.nvs_*`, `use_nvs`) that holds the recorded header.
    Every method is proved to move the object exactly as the corresponding
    transition of `RingLayout` moves a snapshot, and states which header
    entries it records. */
module RingFile {
  import opened Common
  import opened RingLayout

  /** A key-value entry; a missing one reads as 0 (fileringbuffer.py:35-44). */
  function StoredValue(nvs: map<int, nat>, index: int): (v: nat)
    ensures index !in nvs ==> v == 0
    ensures index in nvs ==> v == nvs[index]
  {
    if index in nvs then nvs[index] else 0
  }

  /** `_get_stored_read_position` / `_get_stored_write_position`: a recorded
      0 stands for the initial position `HeaderLen` (fileringbuffer.py:54-85). */
  function StoredPosition(nvs: map<int, nat>, index: int): (p: nat)
    ensures StoredValue(nvs, index) == 0 ==> p == HeaderLen
    ensures StoredValue(nvs, index) != 0 ==> p == StoredValue(nvs, index)
  {
    var v := StoredValue(nvs, index);
    if v == 0 then HeaderLen else v
  }

  /** The file region once `__init__` has opened a file holding `file`: a
      shorter file is extended with zero bytes; the model reads a longer one
      only up to `bufferSize` (fileringbuffer.py:171-175). */
  function OpenedData(file: seq<byte>, bufferSize: nat): (d: seq<byte>)
    ensures |d| == bufferSize
    ensures |file| < bufferSize ==> d[..|file|] == file && forall i :: |file| <= i < bufferSize ==> d[i] == 0
    ensures |file| >= bufferSize ==> d == file[..bufferSize]
  {
    if |file| < bufferSize then file + Zeros(bufferSize - |file|) else file[..bufferSize]
  }

  /** The snapshot `__init__` leaves: an extended file starts empty, an
      existing one at the recorded cursors (fileringbuffer.py:171-182). */
  function OpenedState(capacity: nat, file: seq<byte>, stored: map<int, nat>): (s: Ring)
    ensures |s.data| == BufferSize(capacity)
    ensures s.data == OpenedData(file, BufferSize(capacity))
    ensures |file| < BufferSize(capacity) ==> s.read == HeaderLen && s.write == HeaderLen
    ensures |file| >= BufferSize(capacity) ==>
      s.read == StoredPosition(stored, ReadPosIdx) && s.write == StoredPosition(stored, WritePosIdx)
  {
    var size := BufferSize(capacity);
    if |file| < size then Ring(OpenedData(file, size), HeaderLen, HeaderLen)
    else Ring(OpenedData(file, size), StoredPosition(stored, ReadPosIdx), StoredPosition(stored, WritePosIdx))
  }

  /** The header with `read` and `write` recorded (`_record_rw_positions`, fileringbuffer.py:94-104). */
  function RecordRw(nvs: map<int, nat>, read: nat, write: nat): (m: map<int, nat>)
    ensures StoredValue(m, ReadPosIdx) == read && StoredValue(m, WritePosIdx) == write
    ensures StoredValue(m, SeqIdIdx) == StoredValue(nvs, SeqIdIdx) && StoredValue(m, AckIdIdx) == StoredValue(nvs, AckIdIdx)
  {
    nvs[ReadPosIdx := read][WritePosIdx := write]
  }

  /** Reopening a file whose cursors were recorded finds them again: the
      crash recovery the recorded header exists for
      (fileringbuffer.py:54-85, 94-104, 176-182). */
  lemma ReopenRecorded(c: nat, file: seq<byte>, nvs: map<int, nat>, r: nat, w: nat)
    requires |file| >= BufferSize(c)
    requires HeaderLen <= r <= BufferSize(c) - 1 && HeaderLen <= w <= BufferSize(c) - 1
    ensures OpenedState(c, file, RecordRw(nvs, r, w)) == Ring(OpenedData(file, BufferSize(c)), r, w)
  {
  }

  /** The header with `seqNo` and `ack` recorded (`_record_seq_ack`, fileringbuffer.py:115-119). */
  function RecordSeqAck(nvs: map<int, nat>, seqNo: nat, ack: nat): (m: map<int, nat>)
    ensures StoredValue(m, SeqIdIdx) == seqNo && StoredValue(m, AckIdIdx) == ack
    ensures StoredValue(m, ReadPosIdx) == StoredValue(nvs, ReadPosIdx) && StoredValue(m, WritePosIdx) == StoredValue(nvs, WritePosIdx)
  {
    nvs[SeqIdIdx := seqNo][AckIdIdx := ack]
  }

  class FileRingBuffer {
    const capacity: nat
    const bufferSize: nat
    /** The file: `HeaderLen` header bytes, then the circular region. */
    const data: array<byte>
    var readPosition: int
    var writePosition: int
    /** The key-value store entries `"wkb" + index`, keyed by header index. */
    var nvs: map<int, nat>

    /** The sizes agree and both cursors lie inside the data region. */
    predicate Valid()
      reads this
    {
      bufferSize == BufferSize(capacity) && data.Length == bufferSize &&
      HeaderLen <= readPosition <= bufferSize - 1 && HeaderLen <= writePosition <= bufferSize - 1
    }

    /** The snapshot the transitions of `RingLayout` act on. */
    function State(): (s: Ring)
      reads this, data
      ensures Valid() ==> s.Shaped() && s.Capacity() == capacity
    {
      Ring(data[..], readPosition, writePosition)
    }

    /** The recorded header equals the in-memory cursors. */
    predicate Recorded()
      reads this
    {
      StoredValue(nvs, ReadPosIdx) == readPosition && StoredValue(nvs, WritePosIdx) == writePosition
    }

    /** `__init__(file_path, capacity)` on a file holding `file` and a key-value
        store holding `stored` (fileringbuffer.py:135-185). A file shorter than
        `buffer_size` is extended with zeros and the buffer starts empty with
        sequence and ack numbers 0; otherwise the cursors are the recorded
        ones. Either way the cursors are then recorded. */
    constructor (capacity: nat, file: seq<byte>, stored: map<int, nat>)
      requires |file| >= BufferSize(capacity) ==>
        HeaderLen <= StoredPosition(stored, ReadPosIdx) <= BufferSize(capacity) - 1 &&
        HeaderLen <= StoredPosition(stored, WritePosIdx) <= BufferSize(capacity) - 1
      ensures Valid() && Recorded() && fresh(data)
      ensures this.capacity == capacity && State() == OpenedState(capacity, file, stored)
      ensures |file| < bufferSize ==>
        readPosition == HeaderLen && writePosition == HeaderLen &&
        nvs == RecordRw(RecordSeqAck(stored, 0, 0), HeaderLen, HeaderLen)
      ensures |file| >= bufferSize ==>
        readPosition == StoredPosition(stored, ReadPosIdx) && writePosition == StoredPosition(stored, WritePosIdx) &&
        nvs == RecordRw(stored, readPosition, writePosition)
    {
      var size := BufferSize(capacity);
      this.capacity := capacity;
      bufferSize := size;
      var initial := OpenedData(file, size);
      data := new byte[size](i requires 0 <= i < size => initial[i]);
      if |file| < size {
        readPosition := HeaderLen;
        writePosition := HeaderLen;
        nvs := RecordSeqAck(stored, 0, 0);
      } else {
        readPosition := StoredPosition(stored, ReadPosIdx);
        writePosition := StoredPosition(stored, WritePosIdx);
        nvs := stored;
      }
      new;
      RecordRwPositions();
    }

    /** `_record_rw_positions` */
    method RecordRwPositions()
      requires Valid()
      modifies this
      ensures Valid() && Recorded() && State() == old(State())
      ensures nvs == RecordRw(old(nvs), readPosition, writePosition)
    {
      nvs := RecordRw(nvs, readPosition, writePosition);
    }

    /** `empty()` (fileringbuffer.py:187-189). */
    method Empty() returns (b: bool)
      ensures b <==> State().Empty()
    {
      b := readPosition == writePosition;
    }

    /** The signed length field at `p`, read from the file. */
    method ReadLength(p: int) returns (len: int)
      requires 0 <= p && p + ItemSizeLen <= data.Length
      ensures len == LenAt(data[..], p)
    {
      LenAtDecodes(data[..], p);
      len := DecodeI32(data[p .. p + ItemSizeLen]);
    }

    /** `_advance_read_position` (fileringbuffer.py:191-198). */
    method AdvanceReadPosition()
      requires 0 <= readPosition && readPosition + ItemSizeLen <= data.Length
      modifies this
      ensures readPosition == Hop(data[..], old(readPosition))
      ensures writePosition == old(writePosition) && nvs == old(nvs)
    {
      var delta := ReadLength(readPosition);
      readPosition := readPosition + ItemSizeLen + delta;
    }

    /** `_readItemAtPosition(position, max_len)` (fileringbuffer.py:321-339):
        the item, or `None` for a position at or past the last byte or a
        length that is not positive, truncated to `maxLen`; the length read
        raises when fewer than four bytes are left. */
    method ReadItemAtPosition(position: int, maxLen: nat) returns (r: ItemRead)
      requires Valid()
      ensures r == ReadItemAt(data[..], position, maxLen)
    {
      if position >= bufferSize - 1 {
        return PastEnd;
      }
      if position < 0 || position + ItemSizeLen > data.Length {
        return ReadFailed;
      }
      var len := ReadLength(position);
      if len <= 0 {
        return Read(None, position + ItemSizeLen);
      }
      if len > maxLen {
        len := maxLen;
      }
      var stop := position + ItemSizeLen + len;
      if stop > data.Length {
        stop := data.Length;
      }
      r := Read(Some(data[position + ItemSizeLen .. stop]), stop);
    }

    /** Writes `b` into the file at `p`. */
    method WriteAt(p: int, b: seq<byte>)
      requires 0 <= p && p + |b| <= data.Length
      modifies data
      ensures data[..] == Overwrite(old(data[..]), p, b)
    {
      var i := 0;
      while i < |b|
        invariant 0 <= i <= |b|
        invariant Overwrite(data[..], p + i, b[i..]) == Overwrite(old(data[..]), p, b)
      {
        assert b[i..][1..] == b[i + 1..];
        data[p + i] := b[i];
        i := i + 1;
      }
    }

    /** `put(item)` (fileringbuffer.py:228-277). An item too large for the
        capacity changes nothing. An item shorter than three bytes (the event
        decode at line 262 indexes `item[2]`) or too long for format "i"
        raises once the cursors have moved in memory, before anything is
        written or recorded; `put` catches it. */
    method Put(item: seq<byte>)
      requires Valid() && PutReadable(State(), |item|)
      modifies this, data
      ensures Valid() && State() == PutRing(old(State()), item)
      ensures nvs == if ItemSizeLen + |item| <= capacity && 3 <= |item| < 0x8000_0000
        then RecordRw(old(nvs), readPosition, writePosition) else old(nvs)
    {
      var itemLen := |item|;
      if ItemSizeLen + itemLen > capacity {
        return;
      }
      var wasEmpty := WrapForPut(itemLen);
      EvictForPut(itemLen, wasEmpty);
      if itemLen < 3 || itemLen >= 0x8000_0000 {
        return;
      }
      WriteAt(writePosition, EncodeI32(itemLen) + item);
      var tell := writePosition + ItemSizeLen + itemLen;
      if tell >= bufferSize {
        writePosition := HeaderLen;
      } else {
        writePosition := tell;
      }
      RecordRwPositions();
    }

    /** The wrap step of `put` (fileringbuffer.py:238-250): when the item
        and the reserved byte do not fit before the end, the writer restarts
        at `HeaderLen`, and so does the reader of an empty buffer; a reader
        the writer lapped restarts one item past `HeaderLen`. */
    method WrapForPut(itemLen: nat) returns (wasEmpty: bool)
      requires Valid() && PutReadable(State(), itemLen) && ItemSizeLen + itemLen <= capacity
      modifies this
      ensures wasEmpty == old(State()).Empty() && data[..] == old(data[..]) && nvs == old(nvs)
      ensures readPosition == WalkStart(old(State()), itemLen) && writePosition == PutSlot(old(State()), itemLen)
    {
      var prevWritePosition := writePosition;
      wasEmpty := Empty();
      if writePosition + ItemSizeLen + itemLen + 1 > bufferSize {
        writePosition := HeaderLen;
        if wasEmpty {
          readPosition := HeaderLen;
        } else if readPosition > prevWritePosition {
          readPosition := HeaderLen;
          AdvanceReadPosition();
        }
      }
    }

    /** The eviction walk of `put` (fileringbuffer.py:254-255): unless the
        buffer was empty, the reader moves one item at a time while it lies
        ahead of the writer and closer than the item's slot needs. */
    method EvictForPut(itemLen: nat, wasEmpty: bool)
      requires ItemSizeLen + itemLen <= capacity && data.Length == BufferSize(capacity)
      requires wasEmpty || EvictReadable(data[..], readPosition, writePosition, ItemSizeLen + itemLen)
      modifies this
      ensures data[..] == old(data[..]) && writePosition == old(writePosition) && nvs == old(nvs)
      ensures wasEmpty ==> readPosition == old(readPosition)
      ensures !wasEmpty ==> readPosition == Evict(data[..], old(readPosition), writePosition, ItemSizeLen + itemLen)
    {
      var size := ItemSizeLen + itemLen;
      while !wasEmpty && NeedsAdvancing(readPosition, writePosition, size)
        invariant writePosition == old(writePosition) && nvs == old(nvs)
        invariant wasEmpty ==> readPosition == old(readPosition)
        invariant !wasEmpty ==> EvictReadable(data[..], readPosition, writePosition, size)
        invariant !wasEmpty ==>
          Evict(data[..], readPosition, writePosition, size) == Evict(data[..], old(readPosition), writePosition, size)
        decreases writePosition + size - readPosition
      {
        AdvanceReadPosition();
      }
    }

    /** `get()` (fileringbuffer.py:285-307): the oldest item; the reader
        moves past it, wrapping to `HeaderLen` at the last byte together with
        a writer that sits there. A failed read raises before anything moves. */
    method Get() returns (r: Fallible<Option<seq<byte>>>)
      requires Valid() && readPosition < bufferSize - 1
      modifies this
      ensures Valid() && (State(), r) == GetRing(old(State()))
      ensures nvs == if r.Done? then RecordRw(old(nvs), readPosition, writePosition) else old(nvs)
    {
      var res := ReadItemAtPosition(readPosition, DefaultMaxLen);
      match res
      case Read(item, tell) =>
        if tell >= bufferSize - 1 {
          readPosition := HeaderLen;
          if writePosition >= bufferSize - 1 {
            writePosition := HeaderLen;
          }
        } else {
          readPosition := tell;
        }
        RecordRwPositions();
        r := Done(item);
      case _ =>
        r := Raised;
    }

    /** `peek()` (fileringbuffer.py:342-367): the oldest item without
        removing it. A reader stuck on the last byte is moved to `HeaderLen`
        in memory only; nothing is recorded. */
    method Peek() returns (r: Fallible<Option<seq<byte>>>)
      requires Valid()
      modifies this
      ensures Valid() && (State(), r) == PeekRing(old(State()))
      ensures nvs == old(nvs)
    {
      var empty := Empty();
      if empty {
        return Done(None);
      }
      if readPosition >= bufferSize - 1 {
        readPosition := HeaderLen;
        empty := Empty();
        if empty {
          return Done(None);
        }
      }
      var res := ReadItemAtPosition(readPosition, DefaultMaxLen);
      match res
      case Read(item, _) => r := Done(item);
      case PastEnd => r := Done(None);
      case ReadFailed => r := Raised;
    }

    /** `peekLast(blockSize)` (fileringbuffer.py:370-380): the item of
        `blockSize` bytes just before the writer, read without moving anything. */
    method PeekLast(blockSize: nat) returns (r: Fallible<Option<seq<byte>>>)
      requires Valid()
      ensures r == PeekLastRing(State(), blockSize)
    {
      var pos := writePosition - blockSize - ItemSizeLen;
      if pos < HeaderLen {
        pos := bufferSize - 1 - blockSize - ItemSizeLen;
      }
      var res := ReadItemAtPosition(pos, blockSize);
      match res
      case Read(item, _) => r := Done(item);
      case PastEnd => r := Done(None);
      case ReadFailed => r := Raised;
    }

    /** `setReadPosition(position)` (fileringbuffer.py:400-405). */
    method SetReadPosition(position: int)
      requires Valid() && HeaderLen <= position <= bufferSize - 1
      modifies this
      ensures Valid() && State() == old(State()).(read := position)
      ensures nvs == RecordRw(old(nvs), position, writePosition)
    {
      readPosition := position;
      RecordRwPositions();
    }

    /** `advanceReadPositionFrom(position)` (fileringbuffer.py:408-419): the
        reader moves past the item stored at `position`, to `HeaderLen` when
        that reaches the last byte; the writer never moves. */
    method AdvanceReadPositionFrom(position: int)
      requires Valid() && HeaderLen <= position && position + ItemSizeLen <= bufferSize
      requires LenAt(data[..], position) >= 0
      modifies this
      ensures Valid() && State() == AdvanceFromRing(old(State()), position)
      ensures nvs == RecordRw(old(nvs), readPosition, writePosition)
    {
      readPosition := position;
      AdvanceReadPosition();
      if readPosition >= bufferSize - 1 {
        readPosition := HeaderLen;
      }
      RecordRwPositions();
    }

    /** `clear()` (fileringbuffer.py:422-430). */
    method Clear()
      requires Valid()
      modifies this, data
      ensures Valid() && State() == ClearRing(old(State()))
      ensures nvs == RecordRw(old(nvs), HeaderLen, HeaderLen)
    {
      var i := 0;
      while i < data.Length
        invariant 0 <= i <= data.Length
        invariant forall j :: 0 <= j < i ==> data[j] == 0
        invariant Valid() && nvs == old(nvs)
      {
        data[i] := 0;
        i := i + 1;
      }
      assert data[..] == Zeros(bufferSize);
      readPosition := HeaderLen;
      writePosition := HeaderLen;
      RecordRwPositions();
    }

    /** `storeSeqAck(seq, ack)` (fileringbuffer.py:433-440). */
    method StoreSeqAck(seqNo: nat, ack: nat)
      modifies this
      ensures nvs == RecordSeqAck(old(nvs), seqNo, ack)
      ensures State() == old(State())
    {
      nvs := RecordSeqAck(nvs, seqNo, ack);
    }

    /** `getSequenceNumber()` (fileringbuffer.py:442-445). */
    method GetSequenceNumber() returns (n: nat)
      ensures n == StoredValue(nvs, SeqIdIdx)
    {
      n := StoredValue(nvs, SeqIdIdx);
    }

    /** `getAckNumber()` (fileringbuffer.py:448-451). */
    method GetAckNumber() returns (n: nat)
      ensures n == StoredValue(nvs, AckIdIdx)
    {
      n := StoredValue(nvs, AckIdIdx);
    }
  }
}
