/** The uplink side of the LoRa controller (loracontroller.py): the frame
    an event is sent as, and the bookkeeping of a send. The radio itself is
    outside the model: whether the device has joined the network and what
    `sendPayload` returned are inputs. */
module LoraController {
  import opened Common
  import opened Config
  import opened EventLog

  /** The first byte of the frame of a detected tag. */
  const TagFrameCode := 0x01

  /** Bytes of tag UID a frame may carry, and the fewest it carries. */
  const UidLen := 10
  const MinUidLen := 4

  /** The length of `uid[..n]` once trailing zero bytes are dropped, never
      below `MinUidLen`. */
  function TrimmedLen(uid: seq<byte>, n: nat): (k: nat)
    requires MinUidLen <= n <= |uid|
    ensures MinUidLen <= k <= n
    ensures forall i :: k <= i < n ==> uid[i] == 0
    ensures k > MinUidLen ==> uid[k - 1] != 0
    decreases n
  {
    if n == MinUidLen || uid[n - 1] != 0 then n else TrimmedLen(uid, n - 1)
  }

  /** Dropping the trailing zeros of a UID and padding the rest back to
      `UidLen` bytes gives the UID back. */
  lemma TrimmedPadded(uid: seq<byte>)
    requires |uid| == UidLen
    ensures uid[..TrimmedLen(uid, UidLen)] + Zeros(UidLen - TrimmedLen(uid, UidLen)) == uid
  {
    var k := TrimmedLen(uid, UidLen);
    var padded := uid[..k] + Zeros(UidLen - k);
    assert |padded| == |uid|;
    forall i | 0 <= i < UidLen
      ensures padded[i] == uid[i]
    {
      if i >= k {
        assert padded[i] == Zeros(UidLen - k)[i - k];
      }
    }
  }

  /** The frame `makePayload(event)` builds at clock reading `now`
      (loracontroller.py:107-147), or `None` for a command that is not sent
      or when building the frame raises: a tag event whose data is shorter
      than the UID loop reads, or a clock that does not fit 4 bytes. */
  function Frame(e: Event, now: int): (p: Option<seq<byte>>)
    ensures p.Some? <==>
      (e.command == CmdTagDetected && |e.data| >= UidLen) ||
      (e.command == CmdTimeRequest2 && 0 <= now < 0x1_0000_0000) ||
      e.command == CmdTimeChanged
    ensures p.Some? ==> 7 <= |p.value| && p.value[1..3] == EncodeU16(e.id)
    ensures p.Some? && e.command == CmdTagDetected ==>
      p.value[0] == TagFrameCode && 11 <= |p.value| <= 17 && p.value[3..7] == EncodeU32(e.time) &&
      p.value[7..] + Zeros(17 - |p.value|) == e.data[..UidLen] &&
      (|p.value| > 11 ==> p.value[|p.value| - 1] != 0)
    ensures p.Some? && e.command == CmdTimeRequest2 ==>
      |p.value| == 7 && p.value[0] == CmdTimeRequest2 && p.value[3..7] == EncodeU32(now)
    ensures p.Some? && e.command == CmdTimeChanged ==>
      p.value[0] == CmdTimeChanged && p.value[3..7] == EncodeU32(e.time) &&
      p.value[7..] == e.data[..if |e.data| < 4 then |e.data| else 4]
  {
    var idBytes := EncodeU16(e.id);
    if e.command == CmdTagDetected then
      if |e.data| < UidLen then None
      else
        var uid := e.data[..UidLen];
        var k := TrimmedLen(uid, UidLen);
        TrimmedPadded(uid);
        var p := [TagFrameCode] + idBytes + EncodeU32(e.time) + uid[..k];
        assert p[7..] == uid[..k];
        Some(p)
    else if e.command == CmdTimeRequest2 then
      if 0 <= now < 0x1_0000_0000 then Some([CmdTimeRequest2] + idBytes + EncodeU32(now)) else None
    else if e.command == CmdTimeChanged then
      var p := [CmdTimeChanged] + idBytes + EncodeU32(e.time) + e.data[..if |e.data| < 4 then |e.data| else 4];
      assert p[7..] == e.data[..if |e.data| < 4 then |e.data| else 4];
      Some(p)
    else
      None
  }

  /** A frame gives back the ID of its event and, but for a time request,
      the event's time. */
  lemma FrameFields(e: Event, now: int)
    requires Frame(e, now).Some?
    ensures DecodeU16(Frame(e, now).value[1..3]) == e.id
    ensures e.command != CmdTimeRequest2 ==> DecodeU32(Frame(e, now).value[3..7]) == e.time
    ensures e.command == CmdTimeRequest2 ==> DecodeU32(Frame(e, now).value[3..7]) == now
  {
    U16RoundTrip(e.id);
    U32RoundTrip(e.time);
    if e.command == CmdTimeRequest2 {
      U32RoundTrip(now);
    }
  }

  /** Every event unpacked from a log block is sent, unless its command is
      not one the controller sends or it is a time request made with a clock
      that does not fit 4 bytes. */
  lemma LoggedEventsFrame(b: seq<byte>, now: int)
    requires |b| == EventLogBlockSize
    ensures var e := UnpackEventPayload(Some(b)).value;
      Frame(e, now).Some? <==>
        e.command == CmdTagDetected || e.command == CmdTimeChanged ||
        (e.command == CmdTimeRequest2 && 0 <= now < 0x1_0000_0000)
  {
    var e := UnpackEventPayload(Some(b)).value;
    assert |e.data| == EventLogBlockSize - EventHeaderLen;
  }

  /** What `sendPayload` returned: `False` when sending failed, otherwise
      the downlink it received, if any. */
  datatype Uplink = Failed | Answered(downlink: Option<seq<byte>>)

  /** No downlink came back from a send that did not fail. */
  predicate NoDownlink(u: Uplink)
  {
    u.Answered? && (u.downlink.None? || |u.downlink.value| == 0)
  }

  /** The send bookkeeping of the controller (loracontroller.py:19-36). */
  class LoraController {
    var lastEventId: int
    var noDownlinkCounter: nat

    constructor ()
      ensures lastEventId == 0 && noDownlinkCounter == 0
    {
      lastEventId := 0;
      noDownlinkCounter := 0;
    }

    /** `makePayload(event)` at clock reading `now` (loracontroller.py:107-147). */
    method MakePayload(e: Event, now: int) returns (payload: Option<seq<byte>>)
      ensures payload == Frame(e, now)
    {
      payload := None;
      var idBytes := EncodeU16(e.id);
      if e.command == CmdTagDetected {
        var timeBytes := EncodeU32(e.time);
        var uid := e.data[..if |e.data| < UidLen then |e.data| else UidLen];
        var uidSize := UidLen;
        var i := UidLen - 1;
        var raised := false;
        while i > MinUidLen - 1
          invariant MinUidLen - 1 <= i <= UidLen - 1 && uidSize == i + 1 && !raised
          invariant i < UidLen - 1 ==> |uid| == UidLen
          invariant |uid| == UidLen ==> TrimmedLen(uid, UidLen) == TrimmedLen(uid, uidSize)
        {
          if i >= |uid| {
            raised := true;
            break;
          }
          if uid[i] != 0 {
            break;
          }
          uidSize := uidSize - 1;
          i := i - 1;
        }
        if !raised {
          payload := Some([TagFrameCode] + idBytes + timeBytes + uid[..uidSize]);
        }
      }
      if e.command == CmdTimeRequest2 {
        if 0 <= now < 0x1_0000_0000 {
          payload := Some([e.command] + idBytes + EncodeU32(now));
        }
      }
      if e.command == CmdTimeChanged {
        var oldTime := e.data[..if |e.data| < 4 then |e.data| else 4];
        payload := Some([CmdTimeChanged] + idBytes + EncodeU32(e.time) + oldTime);
      }
    }

    /** `sendAndHandleResponse(payload)` (loracontroller.py:168-189), where
        `joined` is what `hasJoined()` answers and `uplink` what
        `sendPayload(payload)` returned. The payload counts as sent unless
        the device has not joined or sending failed; the counter of missing
        downlinks grows on a failed send and on a send with no downlink. */
    method SendAndHandleResponse(payload: seq<byte>, joined: bool, uplink: Uplink) returns (sent: bool)
      modifies this
      ensures sent <==> joined && uplink.Answered?
      ensures lastEventId == old(lastEventId)
      ensures noDownlinkCounter == old(noDownlinkCounter) + if joined && (uplink.Failed? || NoDownlink(uplink)) then 1 else 0
    {
      if !joined {
        return false;
      }
      if uplink.Failed? {
        noDownlinkCounter := noDownlinkCounter + 1;
        return false;
      }
      if uplink.downlink.Some? && |uplink.downlink.value| > 0 {
        return true;
      }
      noDownlinkCounter := noDownlinkCounter + 1;
      return true;
    }

    /** `sendEvent(event)` (loracontroller.py:150-164) at clock reading
        `now`. `gap` is whether the ID skips past the one after the last
        event sent, which the source logs as an error. An event with no
        frame counts as sent without a transmission. */
    method SendEvent(e: Event, now: int, joined: bool, uplink: Uplink) returns (sent: bool, gap: bool)
      modifies this
      ensures gap <==> old(lastEventId) > 0 && e.id > old(lastEventId) + 1
      ensures lastEventId == e.id
      ensures sent <==> Frame(e, now).None? || (joined && uplink.Answered?)
      ensures noDownlinkCounter == old(noDownlinkCounter) +
        if Frame(e, now).Some? && joined && (uplink.Failed? || NoDownlink(uplink)) then 1 else 0
    {
      gap := lastEventId > 0 && e.id > lastEventId + 1;
      lastEventId := e.id;
      var payload := MakePayload(e, now);
      if payload.None? {
        return true, gap;
      }
      sent := SendAndHandleResponse(payload.value, joined, uplink);
    }
  }
}
