/** The event log (eventlog.py): events packed into fixed-size blocks and
    kept in a `FileRingBuffer`, an event ID that counts up and wraps, and
    the recovery of that ID when the device restarts. */
module EventLog {
  import opened Common
  import opened Config
  import opened RingLayout
  import opened RingQueue
  import opened RingRead
  import opened EventGrid
  import opened RingFile

  /** Event commands (eventlog.py:21-24). */
  const CmdTagDetected := 0x02
  const CmdTimeRequest := 0x03
  const CmdTimeRequest2 := 0x04
  const CmdTimeChanged := 0x05

  /** Bytes of a block before its data: ID (2), command (1), time (4). */
  const EventHeaderLen := 7

  /** An unpacked event block, the dictionary `_unpackEventPayload` builds. */
  datatype Event = Event(id: u16, command: byte, time: u32, data: seq<byte>)

  /** The data bytes a block keeps of an event's data: as many as fit after
      the header, then zeros. */
  function BlockData(data: Option<seq<byte>>): (r: seq<byte>)
    ensures |r| == EventLogBlockSize - EventHeaderLen
  {
    seq(EventLogBlockSize - EventHeaderLen, i requires 0 <= i => if data.Some? && i < |data.value| then data.value[i] else 0)
  }

  /** `_formatEvent(cmd, data)` with the event ID `id` and the clock reading
      `now` (eventlog.py:75-87): the header, then the data, padded with
      zeros or cut to one block. `to_bytes` and `bytes([cmd])` raise when a
      field does not fit its width. */
  function FormatEvent(id: int, cmd: int, now: int, data: Option<seq<byte>>): (r: Fallible<seq<byte>>)
    ensures r.Done? <==> 0 <= id < 0x1_0000 && 0 <= cmd < 0x100 && 0 <= now < 0x1_0000_0000
    ensures r.Done? ==> |r.value| == EventLogBlockSize
    ensures r.Done? ==> r.value == EncodeU16(id) + [cmd] + EncodeU32(now) + BlockData(data)
  {
    if 0 <= id < 0x1_0000 && 0 <= cmd < 0x100 && 0 <= now < 0x1_0000_0000 then
      var header := EncodeU16(id) + [cmd] + EncodeU32(now);
      var buffer := if data.Some? then header + data.value else header;
      var block := if |buffer| < EventLogBlockSize then buffer + Zeros(EventLogBlockSize - |buffer|)
                   else buffer[..EventLogBlockSize];
      assert block == header + BlockData(data) by {
        assert |block| == |header + BlockData(data)|;
        forall i | 0 <= i < |block|
          ensures block[i] == (header + BlockData(data))[i]
        {
          if i >= EventHeaderLen {
            assert BlockData(data)[i - EventHeaderLen] == (if data.Some? && i - EventHeaderLen < |data.value| then data.value[i - EventHeaderLen] else 0);
          }
        }
      }
      Done(block)
    else
      Raised
  }

  /** `_unpackEventPayload(block)` (eventlog.py:90-99): only a block of
      exactly `EventLogBlockSize` bytes unpacks, into its fields. */
  function UnpackEventPayload(block: Option<seq<byte>>): (e: Option<Event>)
    ensures e.Some? <==> block.Some? && |block.value| == EventLogBlockSize
    ensures e.Some? ==> block.value == EncodeU16(e.value.id) + [e.value.command] + EncodeU32(e.value.time) + e.value.data
  {
    if block.Some? && |block.value| > 0 && |block.value| == EventLogBlockSize then
      var b := block.value;
      U16BytesRoundTrip(b[0..2]);
      U32BytesRoundTrip(b[3..7]);
      assert b == b[0..2] + [b[2]] + b[3..7] + b[7..];
      Some(Event(DecodeU16(b[0..2]), b[2], DecodeU32(b[3..7]), b[7..]))
    else
      None
  }

  /** Unpacking a formatted block gives back the event's fields, with the
      data as the block keeps it. */
  lemma UnpackFormat(id: int, cmd: int, now: int, data: Option<seq<byte>>)
    requires FormatEvent(id, cmd, now, data).Done?
    ensures UnpackEventPayload(Some(FormatEvent(id, cmd, now, data).value)) == Some(Event(id, cmd, now, BlockData(data)))
  {
    var b := FormatEvent(id, cmd, now, data).value;
    var e := UnpackEventPayload(Some(b)).value;
    assert EncodeU16(e.id) == b[0..2] == EncodeU16(id);
    assert EncodeU32(e.time) == b[3..7] == EncodeU32(now);
    assert e.data == b[7..] == BlockData(data);
    U16RoundTrip(e.id);
    U16RoundTrip(id);
    U32RoundTrip(e.time);
    U32RoundTrip(now);
  }

  /** Formatting the fields of an unpacked block gives the block back. */
  lemma FormatUnpack(b: seq<byte>)
    requires |b| == EventLogBlockSize
    ensures UnpackEventPayload(Some(b)).Some?
    ensures var e := UnpackEventPayload(Some(b)).value;
      FormatEvent(e.id, e.command, e.time, Some(e.data)) == Done(b)
  {
    var e := UnpackEventPayload(Some(b)).value;
    assert BlockData(Some(e.data)) == e.data;
  }

  /** The ID `_advanceEventId` moves to (eventlog.py:66-73): the next one,
      wrapping to 0 after `EventLogMaxEventId`. */
  function NextEventId(id: int): (n: int)
    ensures id >= -1 ==> 0 <= n <= EventLogMaxEventId
    ensures -1 <= id <= EventLogMaxEventId ==> n == (id + 1) % (EventLogMaxEventId + 1)
  {
    if id < EventLogMaxEventId then id + 1 else 0
  }

  /** The event ID and last acknowledged ID `__init__` recovers
      (eventlog.py:39-61) from the recorded sequence and ack numbers and
      the last event in the log. A recorded number at or past
      `EventLogMaxEventId` counts as 0; a sequence number of 0 is replaced
      by the ID of the last event, or -1 when there is none; the ack number
      never exceeds the event ID. */
  function RecoveredIds(seqNo: nat, ack: nat, last: Option<Event>): (ids: (int, nat))
    ensures ids.0 == if 0 < seqNo < EventLogMaxEventId then seqNo else if last.Some? then last.value.id else -1
    ensures ack >= EventLogMaxEventId ==> ids.1 == 0
    ensures ids.0 < 0 ==> ids.1 == 0
    ensures ids.0 >= 0 && ack < EventLogMaxEventId ==> ids.1 == if ack <= ids.0 then ack else ids.0
  {
    var id := if seqNo >= EventLogMaxEventId then 0 else seqNo;
    var acked := if ack >= EventLogMaxEventId then 0 else ack;
    var (id', acked') :=
      if id != 0 then (id, acked)
      else if last.None? then (-1, 0)
      else (last.value.id, acked);
    if acked' > id' && id' >= 0 then (id', id') else (id', acked')
  }

  /** The event `peekLastEvent` finds in a gridded log (eventlog.py:136-141). */
  function LastEvent(s: Ring): Option<Event>
    requires Gridded(s)
  {
    GridPeekLast(s);
    UnpackEventPayload(PeekLastRing(s, EventLogBlockSize).value)
  }

  /** The blocks a log holds after `put` of one more, by how full it was
      and whether its reader was on the first slot. */
  function PutEvents(c: seq<seq<byte>>, readerFirst: bool, block: seq<byte>): seq<seq<byte>>
  {
    if |c| < EventLogMaxEvents - 1 || (|c| == EventLogMaxEvents - 1 && readerFirst) then c + [block]
    else if |c| == EventLogMaxEvents - 1 then []
    else [block]
  }

  /** The buffer `addEvent` leaves: the event's block put, unless formatting
      it raises. */
  function AddedRing(s: Ring, id: int, cmd: int, now: int, data: Option<seq<byte>>): (t: Ring)
    requires Gridded(s)
    ensures Gridded(t)
  {
    match FormatEvent(id, cmd, now, data)
    case Done(block) => GridPut(s, block); PutRing(s, block)
    case Raised => s
  }

  /** What adding an event does to the blocks a gridded log holds: below
      `EventLogMaxEvents - 1` events it appends the new block; a log one
      short of full keeps its blocks only when its reader is on the first
      slot and otherwise reads as empty; a full log keeps only the new
      block (eventlog.py:101-109, fileringbuffer.py:201-255). */
  lemma AddedEvents(s: Ring, id: int, cmd: int, now: int, data: Option<seq<byte>>)
    requires Gridded(s)
    ensures WellFormed(s) && WellFormed(AddedRing(s, id, cmd, now, data))
    ensures Contents(AddedRing(s, id, cmd, now, data)) == match FormatEvent(id, cmd, now, data)
      case Done(block) => PutEvents(Contents(s), s.read == HeaderLen, block)
      case Raised => Contents(s)
  {
    GridQueue(s);
    GridQueue(AddedRing(s, id, cmd, now, data));
    if FormatEvent(id, cmd, now, data).Done? {
      GridPut(s, FormatEvent(id, cmd, now, data).value);
    }
  }

  /** Right after an event is added, `peekLastEvent` finds it, so a restart
      that lost the sequence number recovers that event's ID. */
  lemma AddThenPeekLast(s: Ring, id: int, cmd: int, now: int, data: Option<seq<byte>>, ack: nat)
    requires Gridded(s) && FormatEvent(id, cmd, now, data).Done?
    ensures LastEvent(AddedRing(s, id, cmd, now, data)) == Some(Event(id, cmd, now, BlockData(data)))
    ensures RecoveredIds(0, ack, LastEvent(AddedRing(s, id, cmd, now, data))).0 == id
  {
    var b := FormatEvent(id, cmd, now, data).value;
    GridPut(s, b);
    PeekLastAfterPut(s, b);
    UnpackFormat(id, cmd, now, data);
  }

  /** The event log over its ring buffer file (eventlog.py:27-141). The
      buffer is always gridded: every item is one event block. */
  class EventLog {
    const ring: FileRingBuffer
    var eventId: int
    var lastAckEventId: nat

    predicate Valid()
      reads this, ring, ring.data
    {
      ring.Valid() && ring.capacity == LogCapacity && Gridded(ring.State()) && -1 <= eventId <= 0xFFFF
    }

    /** The event blocks not yet pulled, oldest first. */
    function Blocks(): (c: seq<seq<byte>>)
      reads this, ring, ring.data
      requires Valid()
      ensures |c| <= EventLogMaxEvents
      ensures c != [] ==> |c[0]| == EventLogBlockSize
    {
      GridQueue(ring.State());
      Contents(ring.State())
    }

    /** `__init__(logger, path)` on a file holding `file` and a key-value
        store holding `stored` (eventlog.py:28-61). */
    constructor (file: seq<byte>, stored: map<int, nat>)
      requires |file| >= BufferSize(LogCapacity) ==> Gridded(OpenedState(LogCapacity, file, stored))
      ensures Valid() && fresh(ring) && fresh(ring.data)
      ensures ring.State() == OpenedState(LogCapacity, file, stored)
      ensures (eventId, lastAckEventId) == RecoveredIds(
        if |file| < BufferSize(LogCapacity) then 0 else StoredValue(stored, SeqIdIdx),
        if |file| < BufferSize(LogCapacity) then 0 else StoredValue(stored, AckIdIdx),
        LastEvent(ring.State()))
    {
      if |file| < BufferSize(LogCapacity) {
        GridStart(OpenedData(file, BufferSize(LogCapacity)));
      }
      ring := new FileRingBuffer(LogCapacity, file, stored);
      eventId := -1;
      lastAckEventId := 0;
      new;
      Recover();
    }

    /** The recovery of the event ID and ack number at the end of
        `__init__` (eventlog.py:39-61), from what the store records. */
    method Recover()
      requires Valid()
      modifies this
      ensures Valid() && ring.State() == old(ring.State())
      ensures (eventId, lastAckEventId) ==
        RecoveredIds(StoredValue(ring.nvs, SeqIdIdx), StoredValue(ring.nvs, AckIdIdx), LastEvent(ring.State()))
    {
      var seqNo := ring.GetSequenceNumber();
      var ack := ring.GetAckNumber();
      var id := if seqNo >= EventLogMaxEventId then 0 else seqNo;
      var acked := if ack >= EventLogMaxEventId then 0 else ack;
      if id == 0 {
        id := -1;
        var last := PeekLastEvent();
        if last.None? {
          acked := 0;
        } else {
          id := last.value.id;
        }
      }
      if acked > id && id >= 0 {
        acked := id;
      }
      eventId, lastAckEventId := id, acked;
    }

    /** `_advanceEventId()` (eventlog.py:66-73): the next ID, recorded with
        the ack number. */
    method AdvanceEventId()
      requires Valid()
      modifies this, ring
      ensures Valid() && eventId == NextEventId(old(eventId)) && lastAckEventId == old(lastAckEventId)
      ensures ring.State() == old(ring.State()) && ring.nvs == RecordSeqAck(old(ring.nvs), eventId, lastAckEventId)
    {
      eventId := if eventId < EventLogMaxEventId then eventId + 1 else 0;
      ring.StoreSeqAck(eventId, lastAckEventId);
    }

    /** `addEvent(cmd, data)` at clock reading `now` (eventlog.py:101-109):
        the ID advances and is recorded; the block is put unless formatting
        raises, which `addEvent` swallows. */
    method AddEvent(cmd: int, data: Option<seq<byte>>, now: int)
      requires Valid()
      modifies this, ring, ring.data
      ensures Valid() && eventId == NextEventId(old(eventId)) && lastAckEventId == old(lastAckEventId)
      ensures ring.State() == AddedRing(old(ring.State()), eventId, cmd, now, data)
      ensures ring.nvs == (var m := RecordSeqAck(old(ring.nvs), eventId, lastAckEventId);
        if FormatEvent(eventId, cmd, now, data).Done? then RecordRw(m, ring.readPosition, ring.writePosition) else m)
    {
      ghost var before := ring.State();
      AdvanceEventId();
      var block := FormatEvent(eventId, cmd, now, data);
      if block.Done? {
        GridPut(before, block.value);
        ring.Put(block.value);
      }
    }

    /** `hasEvents()` (eventlog.py:112-114). */
    method HasEvents() returns (b: bool)
      requires Valid()
      ensures b <==> Blocks() != []
    {
      GridQueue(ring.State());
      EmptyIffNoContents(ring.State());
      var empty := ring.Empty();
      b := !empty;
    }

    /** `peekNextEvent()` (eventlog.py:119-125): the oldest event, left in
        the log. */
    method PeekNextEvent() returns (r: Option<Event>)
      requires Valid()
      modifies ring
      ensures Valid() && ring.State() == old(ring.State()) && ring.nvs == old(ring.nvs)
      ensures r == if Blocks() == [] then None else UnpackEventPayload(Some(Blocks()[0]))
      ensures r.Some? <==> Blocks() != []
    {
      r := None;
      GridPeek(ring.State());
      EmptyIffNoContents(ring.State());
      var empty := ring.Empty();
      if !empty {
        var block := ring.Peek();
        if block.Done? {
          r := UnpackEventPayload(block.value);
        }
      }
    }

    /** `pullNextEvent()` (eventlog.py:127-133): the oldest event, removed
        from the log. */
    method PullNextEvent() returns (r: Option<Event>)
      requires Valid()
      modifies ring
      ensures Valid() && eventId == old(eventId) && lastAckEventId == old(lastAckEventId)
      ensures r == if old(Blocks()) == [] then None else UnpackEventPayload(Some(old(Blocks())[0]))
      ensures r.Some? <==> old(Blocks()) != []
      ensures Blocks() == if old(Blocks()) == [] then old(Blocks()) else old(Blocks())[1..]
      ensures old(Blocks()) == [] ==> ring.State() == old(ring.State()) && ring.nvs == old(ring.nvs)
      ensures old(Blocks()) != [] ==> ring.State() == GetRing(old(ring.State())).0
      ensures old(Blocks()) != [] ==> ring.nvs == RecordRw(old(ring.nvs), ring.readPosition, ring.writePosition)
    {
      r := None;
      GridQueue(ring.State());
      EmptyIffNoContents(ring.State());
      var empty := ring.Empty();
      if !empty {
        GridGet(ring.State());
        var block := ring.Get();
        if block.Done? {
          r := UnpackEventPayload(block.value);
        }
      }
    }

    /** `peekLastEvent()` (eventlog.py:136-141): the event just before the
        writer, read without moving anything. */
    method PeekLastEvent() returns (r: Option<Event>)
      requires Valid()
      ensures r == LastEvent(ring.State())
    {
      GridPeekLast(ring.State());
      var block := ring.PeekLast(EventLogBlockSize);
      r := None;
      if block.Done? {
        r := UnpackEventPayload(block.value);
      }
    }
  }
}
