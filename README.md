# Event store of an NFC badge reader, in Dafny

The firmware of a LoRaWAN badge reader keeps every event it records in a durable circular buffer. Events are tag detections, time requests and clock changes. A background sender publishes the oldest pending event over LoRa and removes it from the log once the send went through. This project models that core and proves properties of the model:

- `RingLayout`, `RingQueue`, `RingRead` (ringlayout.dfy, ringqueue.dfy, ringread.dfy): the file ring buffer of fileringbuffer.py as pure transitions over a snapshot. A snapshot is the file bytes plus the read and write cursors. On top of the bytes sits a queue view: the stored items between the cursors, oldest first. The lemmas state what `put`, `get`, `peek`, `peekLast`, `advanceReadPositionFrom` and `clear` do to that queue.
- `RingFile` (fileringbuffer.dfy): the `FileRingBuffer` class. The data region is a byte array, the cursors are fields, and the header is a key-value store (the device keeps it in NVS). Every method is proved to move the object exactly as the matching transition does, and to record the cursors where the source records them.
- `EventGrid` (eventgrid.dfy): the shape the event log keeps its buffer in. Every item is an 18-byte event block, so items sit in 22-byte slots. This shape rules out every unreadable length and every early wrap. The lemmas state exactly what a `put` does to a log at each fill level.
- `EventLog` (eventlog.dfy): the block codec, the event-ID counter, the recovery of the ID at start-up, and the wrappers around the buffer.
- `LoraController` (loracontroller.dfy): the frame each event is sent as, the gap check on event IDs, and the success and counter bookkeeping of a send.
- `EventSender` (eventsender.dfy): one round of the publishing loop, and `onPublish`.
- `Common`, `Config` (common.dfy, config.dfy): bytes, little-endian integers, and the constants of config.py.

The clock, whether the device has joined the network, and what the radio returned are parameters.

Where the code and its comments disagree, the model follows the code:
- The header holds four 8-byte fields (read, write, sequence number, ack number), so it is 32 bytes long. The class docstring says two fields.
- Event IDs run from 0 to 0xFFFE inclusive before wrapping to 0.
- Equal cursors mean empty, but a `put` keeps no free slot. `_reader_needs_advancing` compares with a strict `<`. So a `put` whose item ends exactly on the reader makes the cursors equal, and the buffer then reads as empty (`RingRead.PutOntoReaderEmpties`).
- In the event log this loses data, as `EventGrid.GridPut` states exactly:
  - a `put` onto a log holding 999 events empties it unless the reader is on the first slot;
  - a `put` onto a full log (1000 events) leaves only the new event.
- `peek` moves a reader stuck on the last byte back to the first slot in memory only, without recording it.
- `advanceReadPositionFrom` never moves the writer. After it consumes the only item of a buffer whose writer sits on the last byte, the buffer does not read as empty, while `get` would empty it (`RingRead.AdvanceAtEnd`).
- `put` of an item shorter than 3 bytes raises after the cursors have moved and before anything is written. The exception is caught, so the moved cursors stay in memory and are not recorded.

## Model

| member | source | states |
|---|---|---|
| Common.LERoundTrip | source/eventlog.py:93-94 | decoding the `k`-byte little-endian encoding of a value below 256^k gives the value back |
| Common.LEBytesRoundTrip | source/eventlog.py:76-78 | encoding the little-endian value of a byte string, at its length, gives the string back |
| Common.U16RoundTrip | source/eventlog.py:76 | a 16-bit value survives `to_bytes(2, 'little')` and `from_bytes` |
| Common.U32RoundTrip | source/eventlog.py:77 | a 32-bit value survives `to_bytes(4, 'little')` and `from_bytes` |
| Common.U16BytesRoundTrip | source/eventlog.py:93 | two bytes survive `from_bytes` and `to_bytes(2, 'little')` |
| Common.U32BytesRoundTrip | source/eventlog.py:94 | four bytes survive `from_bytes` and `to_bytes(4, 'little')` |
| Common.I32RoundTrip | source/fileringbuffer.py:265 | `struct.unpack("i")` of `struct.pack("i", n)` is `n` for every 32-bit signed `n` |
| RingLayout.LenAtDecodes | source/fileringbuffer.py:194-197 | the length read in place at a position is the format "i" unpacking of the four bytes there |
| RingLayout.Evict | source/fileringbuffer.py:201-208 | the eviction walk of `put` never moves the reader backwards, stops where `_reader_needs_advancing` is false, and never passes the last byte |
| RingLayout.ReadItemAt | source/fileringbuffer.py:321-339 | a position at or past the last byte gives `None` without reading; a position whose length field lies outside the file raises; a stored length of 0 or less gives `None` with the file position just past the length field; otherwise the item is the bytes after the length field, as many as the stored length, `max_len` and the end of the file allow, with the file position just past them |
| RingLayout.PutRing | source/fileringbuffer.py:228-277 | an item too large for the capacity changes nothing; otherwise the reader ends where the wrap and the eviction walk leave it; an item that cannot be stored leaves the bytes alone with the writer on the chosen slot; a stored item leaves the writer just past it |
| RingLayout.PutReader | source/fileringbuffer.py:240-255 | the reader after a `put` stays inside the data region |
| RingQueue.EmptyIffNoContents | source/fileringbuffer.py:187-189 | `empty()` holds exactly when there is no item to read |
| RingQueue.WrittenTile | source/fileringbuffer.py:264-266 | writing the packed length and the item at `p` stores exactly that one item and keeps every other byte |
| RingQueue.EvictAlongTiles | source/fileringbuffer.py:254-255 | on a run of items, the eviction walk moves item by item and stops at the first item boundary at or past the end of the new item: every boundary it passes lies before that end |
| RingQueue.EvictStopsFirst | source/fileringbuffer.py:201-208 | the reader is advanced only while the new item would reach it: every item the walk skips starts before the end of the new item |
| RingQueue.EvictDrops | source/fileringbuffer.py:254-255 | the eviction walk from a reader ahead of the writer drops a prefix of the queue that reaches exactly to where the reader stops, whose last item starts before the end of the new item, and leaves the reader on the start of the rest |
| RingQueue.PutQueue | source/fileringbuffer.py:228-277 | `put` keeps the queue well formed; afterwards it reads a suffix of the old queue and then the new item, or nothing when the item ended on the reader; nothing is dropped from a reader behind the new slot, everything from a reader on it, and from a reader ahead of it exactly the oldest items the new one overlaps |
| RingQueue.PutIntoEmpty | source/fileringbuffer.py:239-244 | a `put` into an empty buffer leaves exactly the new item |
| RingQueue.PutBehindWriter | source/fileringbuffer.py:254-272 | with the reader behind the writer and no wrap, `put` appends the item and evicts nothing |
| RingQueue.PutBeforeReader | source/fileringbuffer.py:254-272 | with the writer behind the reader and no wrap, `put` drops exactly the oldest items the new one overlaps (they reach past its end and the last of them starts before it) and appends it |
| RingQueue.PutWrapOntoReader | source/fileringbuffer.py:240-244 | a wrap onto a reader on the first slot, with the writer on the last byte, makes the eviction walk do nothing and leaves only the new item |
| RingQueue.PutWrapBeforeReader | source/fileringbuffer.py:240-255 | a wrap behind a reader ahead of the first slot drops exactly the oldest items the new one overlaps (they reach past its end and the last of them starts before it) and appends it |
| RingQueue.EvictThenStore | source/fileringbuffer.py:254-266 | evicting and then storing at the writer drops exactly the items the new one overlaps, then reads the items kept and the new one, or nothing when the item ends on the reader |
| RingRead.ReadStored | source/fileringbuffer.py:321-339 | reading at the start of a run returns its first item and leaves the file position just past it |
| RingRead.GetQueue | source/fileringbuffer.py:285-307 | `get` returns the oldest item, when it is at most 100 bytes long, and leaves exactly the rest |
| RingRead.GetBehind | source/fileringbuffer.py:290-303 | `get` with the reader behind the writer returns the oldest item and leaves the rest |
| RingRead.GetAhead | source/fileringbuffer.py:290-303 | `get` with the reader ahead of the writer returns the oldest item and leaves the rest, wrapping the reader at the last byte |
| RingRead.PeekQueue | source/fileringbuffer.py:342-367 | `peek` on a non-empty buffer returns the oldest item and keeps the queue; only a reader on the last byte moves |
| RingRead.PeekTwice | source/fileringbuffer.py:342-367 | peeking twice gives the same item and state as peeking once |
| RingRead.PeekLastAfterPut | source/fileringbuffer.py:370-380 | right after a `put`, `peekLast` with the item's length reads that item back |
| RingRead.AdvanceLikeGet | source/fileringbuffer.py:408-419 | `advanceReadPositionFrom(read_position)` moves the reader as `get` does when the writer is not on the last byte |
| RingRead.GetLongItem | source/fileringbuffer.py:296-303 | `get` of an oldest item longer than 100 bytes returns its first 100 bytes and leaves the reader inside the item, where `advanceReadPositionFrom` skips the whole item |
| RingRead.AdvanceAtEnd | source/fileringbuffer.py:408-419 | unlike `get`, `advanceReadPositionFrom` does not empty a buffer whose writer is on the last byte when it consumes the only item |
| RingRead.ClearEmpties | source/fileringbuffer.py:422-430 | `clear` leaves an empty queue and a zeroed region |
| RingRead.PutOntoReaderEmpties | source/fileringbuffer.py:201-208 | a `put` whose item ends exactly on a reader ahead of the writer leaves the buffer reading as empty although it held items |
| EventGrid.GridRoom | source/fileringbuffer.py:240 | on the slot grid, a `put` wraps only from the end of the last slot |
| EventGrid.GridQueue | source/eventlog.py:34 | a gridded log is a well-formed queue of 18-byte blocks, one per slot between the cursors, never more than 1000 |
| EventGrid.GridPutPlaced | source/fileringbuffer.py:240-272 | on the grid, every length the `put` walk reads is readable, no wrap leaves stale bytes, and the block lands on a slot |
| EventGrid.GridPut | source/fileringbuffer.py:201-255 | below 999 events a `put` appends; at 999 it appends only when the reader is on the first slot and otherwise empties the log; at 1000 only the new block is left; the grid is kept |
| EventGrid.GridGet | source/fileringbuffer.py:285-307 | `get` on a non-empty gridded log returns the oldest block and leaves the rest, still gridded |
| EventGrid.GridAfterGet | source/fileringbuffer.py:293-303 | after `get` the reader sits one slot on, wrapping to the first slot at the last byte, and the log stays gridded |
| EventGrid.GridPeek | source/fileringbuffer.py:342-367 | `peek` on a gridded log changes nothing and returns the oldest block, or `None` when empty |
| EventGrid.GridPeekLast | source/fileringbuffer.py:370-380 | `peekLast(18)` on a gridded log reads the slot before the writer, or the last slot, and never raises |
| EventGrid.GridStart | source/fileringbuffer.py:171-177 | a freshly extended log is gridded |
| RingFile.OpenedData | source/fileringbuffer.py:164-175 | a short file is extended with zeros to the buffer size |
| RingFile.ReopenRecorded | source/fileringbuffer.py:176-182 | reopening a file of full size after recording cursors inside the data region finds exactly those cursors and the file's bytes |
| RingFile.OpenedState | source/fileringbuffer.py:171-182 | the region is the file's bytes, zero-extended or cut to the buffer size; an extended file starts empty on the first slot; otherwise the cursors are the recorded ones |
| RingFile.RecordRw | source/fileringbuffer.py:94-104 | recording the cursors changes them in the store and keeps the sequence and ack numbers |
| RingFile.RecordSeqAck | source/fileringbuffer.py:115-119 | recording the sequence and ack numbers keeps the recorded cursors |
| RingFile.FileRingBuffer.constructor | source/fileringbuffer.py:135-185 | the buffer opens in `OpenedState`; an extended file resets the sequence and ack numbers; the cursors are recorded |
| RingFile.FileRingBuffer.RecordRwPositions | source/fileringbuffer.py:94-104 | the store then holds the in-memory cursors |
| RingFile.FileRingBuffer.Empty | source/fileringbuffer.py:187-189 | true exactly when the cursors are equal |
| RingFile.FileRingBuffer.ReadLength | source/fileringbuffer.py:194-197 | returns the signed length stored at the position |
| RingFile.FileRingBuffer.AdvanceReadPosition | source/fileringbuffer.py:191-198 | the reader moves past the item it is on; nothing else changes |
| RingFile.FileRingBuffer.ReadItemAtPosition | source/fileringbuffer.py:321-339 | returns what `ReadItemAt` gives on the array's bytes |
| RingFile.FileRingBuffer.WriteAt | source/fileringbuffer.py:264-266 | the array then holds the bytes written at the position, every other byte kept |
| RingFile.FileRingBuffer.Put | source/fileringbuffer.py:228-277 | the buffer moves as `PutRing` says; the cursors are recorded exactly when the item fits and could be packed |
| RingFile.FileRingBuffer.WrapForPut | source/fileringbuffer.py:238-250 | the writer wraps exactly when the item and the reserved byte do not fit before the end; a wrap resets an empty reader and skips one item for a lapped one |
| RingFile.FileRingBuffer.EvictForPut | source/fileringbuffer.py:254-255 | the reader ends where the eviction walk stops, and stays put on an empty buffer |
| RingFile.FileRingBuffer.Get | source/fileringbuffer.py:285-307 | the buffer and the result are those of `GetRing`; the cursors are recorded unless the read raised |
| RingFile.FileRingBuffer.Peek | source/fileringbuffer.py:342-367 | the buffer and the result are those of `PeekRing`; nothing is recorded |
| RingFile.FileRingBuffer.PeekLast | source/fileringbuffer.py:370-380 | returns `PeekLastRing` of the buffer and changes nothing |
| RingFile.FileRingBuffer.SetReadPosition | source/fileringbuffer.py:400-405 | only the reader changes, and it is recorded |
| RingFile.FileRingBuffer.AdvanceReadPositionFrom | source/fileringbuffer.py:408-419 | the reader moves past the item at the position, wrapping at the last byte; the writer stays; the cursors are recorded |
| RingFile.FileRingBuffer.Clear | source/fileringbuffer.py:422-430 | zeroes the region, puts both cursors on the first slot and records them |
| RingFile.FileRingBuffer.StoreSeqAck | source/fileringbuffer.py:433-440 | records the sequence and ack numbers; the buffer is unchanged |
| RingFile.FileRingBuffer.GetSequenceNumber | source/fileringbuffer.py:442-445 | returns the recorded sequence number, 0 when missing |
| RingFile.FileRingBuffer.GetAckNumber | source/fileringbuffer.py:448-451 | returns the recorded ack number, 0 when missing |
| EventLog.BlockData | source/eventlog.py:79-86 | the data part of a block is 11 bytes: the event's data, cut or padded with zeros |
| EventLog.FormatEvent | source/eventlog.py:75-87 | succeeds exactly when ID, command and time fit their widths; the block is always 18 bytes: ID (2, little-endian), command, time (4, little-endian), then the data part |
| EventLog.UnpackEventPayload | source/eventlog.py:90-99 | unpacks exactly the blocks of 18 bytes, and the fields it returns re-encode to the block |
| EventLog.UnpackFormat | source/eventlog.py:75-99 | unpacking a formatted block gives back the ID, the command, the time and the data as the block keeps it |
| EventLog.FormatUnpack | source/eventlog.py:75-99 | formatting the fields of an unpacked block gives the block back |
| EventLog.NextEventId | source/eventlog.py:66-72 | the next ID is the old one plus one modulo 0xFFFF, always in 0..0xFFFE |
| EventLog.RecoveredIds | source/eventlog.py:39-61 | a recorded sequence number in 1..0xFFFD is kept, otherwise the last event's ID, otherwise -1; a recorded ack at or past 0xFFFE counts as 0, as does any ack when no ID is found; an ack above the recovered ID is lowered to it, and otherwise kept |
| EventLog.AddedRing | source/eventlog.py:101-107 | adding an event keeps the log gridded |
| EventLog.AddedEvents | source/eventlog.py:101-107 | adding an event puts its block as `GridPut` says at each fill level, or changes nothing when formatting raises |
| EventLog.AddThenPeekLast | source/eventlog.py:48-57 | right after an event is added, `peekLastEvent` finds it, so a restart that lost the sequence number recovers its ID |
| EventLog.EventLog.Blocks | source/eventlog.py:34 | the log holds at most 1000 blocks, the oldest of 18 bytes |
| EventLog.EventLog.constructor | source/eventlog.py:28-61 | the log opens on the buffer file gridded, with the ID and ack number `RecoveredIds` gives from the stored numbers and the last event |
| EventLog.EventLog.Recover | source/eventlog.py:39-61 | sets the ID and ack number to `RecoveredIds` of the recorded numbers and the last event |
| EventLog.EventLog.AdvanceEventId | source/eventlog.py:66-73 | the ID becomes `NextEventId` of the old one and is recorded with the ack number |
| EventLog.EventLog.AddEvent | source/eventlog.py:101-109 | the ID advances and is recorded; the buffer becomes `AddedRing` of the old one with the new ID |
| EventLog.EventLog.HasEvents | source/eventlog.py:112-114 | true exactly when the log holds a block |
| EventLog.EventLog.PeekNextEvent | source/eventlog.py:119-125 | returns the oldest event, `None` exactly when the log is empty, and changes nothing |
| EventLog.EventLog.PullNextEvent | source/eventlog.py:127-133 | returns the oldest event and removes exactly that block, recording the cursors; an empty log is left alone |
| EventLog.EventLog.PeekLastEvent | source/eventlog.py:136-141 | returns the event `peekLast(18)` reads, decoded |
| LoraController.TrimmedLen | source/loracontroller.py:119-125 | the UID length once trailing zero bytes are dropped, never below 4: zeros after it, and a nonzero last byte when above 4 |
| LoraController.TrimmedPadded | source/loracontroller.py:117-125 | the trimmed UID padded back with zeros is the original 10 bytes |
| LoraController.Frame | source/loracontroller.py:107-147 | a frame exactly for a tag with at least 10 data bytes, a time request with a 4-byte clock, or a time change; its layout per command, the tag frame 11 to 17 bytes long |
| LoraController.FrameFields | source/loracontroller.py:110-142 | the frame decodes back to the event's ID and to its time, or to the clock for a time request |
| LoraController.LoggedEventsFrame | source/loracontroller.py:113-147 | an event read from the log has a frame exactly when its command is a tag, a time change, or a time request with a clock that fits |
| LoraController.LoraController.constructor | source/loracontroller.py:30-34 | the last event ID and the missing-downlink counter start at 0 |
| LoraController.LoraController.MakePayload | source/loracontroller.py:107-147 | the trimming loop builds exactly `Frame` |
| LoraController.LoraController.SendAndHandleResponse | source/loracontroller.py:168-189 | sent exactly when joined and the send did not fail; the counter grows on a failed send and on a send with no downlink |
| LoraController.LoraController.SendEvent | source/loracontroller.py:150-164 | flags a gap exactly when the last ID is positive and the new one skips past its successor; records the ID; an event without a frame counts as sent |
| EventSender.EventSender.constructor | source/eventsender.py:13-24 | the sender starts enabled, over the given log and controller |
| EventSender.EventSender.OnPublish | source/eventsender.py:76-97 | handled exactly when joined and the event has no frame or was sent; the controller is not called when not joined |
| EventSender.EventSender.SendRound | source/eventsender.py:52-73 | pulls exactly when enabled, the log has an event and it was handled; pulls at most that one event and otherwise leaves the log as it was |

## Left out

- Files, locks and threads: the file and the key-value store are values in memory, and every operation runs alone. The racing-consumer check of the sender is kept, and in this sequential model it always passes.
- Sleeps, the random send interval, the LED and logging: they have no effect on state the model keeps.
- The radio: `start`, joining, callbacks, sockets, `nvram_save` and `stats` are not modelled. Whether the device has joined and what `sendPayload` returned are inputs, and `sendPayload` is taken never to raise (it catches every exception itself).
- `sendTimeRequest` only wraps a radio send.
- `iterate`, `simulateDestruction`, `putString`, `getString` and the print helpers are debug and string helpers.
- The header kept in the file rather than the key-value store (`use_nvs = False`) is not modelled; the device uses the store.
- Exceptions of the key-value store are not modelled; a missing value reads as 0.
- clockController.py, main.py, ledcontroller.py and logger.py are not part of this model.
- `time.time()` is a parameter. One round of the sender uses one clock reading, although the source reads the clock twice.
- Both `hasJoined()` calls of one send are one input `joined`.
- Integer widths of the store (the NVS keeps 32-bit values) are not modelled; stored numbers are unbounded naturals.
- RingFile.FileRingBuffer.Put: requires `PutReadable`, that every length the eviction walk reads is well formed. With a corrupt length the source loops, raises or writes elsewhere.
- RingFile.FileRingBuffer.Get: requires the reader before the last byte. Otherwise the source asks the position of a file it never moved.
- RingFile.FileRingBuffer.SetReadPosition: requires a position inside the data region. The source accepts any value.
- RingFile.FileRingBuffer.AdvanceReadPositionFrom: requires a readable, non-negative length at the position. The source's behaviour on others is not modelled.
- RingFile.FileRingBuffer.constructor: requires recorded positions inside the data region when the file is long enough. Corrupt records and files longer than the buffer are not modelled beyond cutting the file to the buffer size.
- RingQueue.PutQueue: requires no early wrap, that is, a wrapping put finds the writer on the last byte. Otherwise stale bytes stay between the last item and the end, and the queue view does not cover them. The event log never wraps early (`EventGrid.GridPutPlaced`).
- RingRead.GetQueue, RingRead.GetBehind, RingRead.GetAhead, RingRead.PeekQueue, RingRead.AdvanceLikeGet, RingRead.AdvanceAtEnd: require the oldest item to be at most 100 bytes, the default `max_len` of `_readItemAtPosition`. A longer item is read only in part and leaves the reader inside it; `RingRead.GetLongItem` states that case. The event log's 18-byte blocks always fit.
- EventLog.FormatEvent, LoraController.Frame: a clock, ID or command too wide for its field is modelled as raising, as `int.to_bytes` and `bytes([..])` do in CPython; a MicroPython build that truncates instead would differ. No input the device produces reaches this: IDs stay at most 0xFFFE, the commands are constants and the clock fits 4 bytes.
- EventLog.EventLog.constructor: requires that an existing file holds a gridded log. A file written with another block size or capacity is not modelled.
