/** The event sender (eventsender.py): each round of its publishing loop
    sends the oldest pending event and pulls it from the log once it has
    been handled. The sleep between rounds, the LED and the logging are
    outside the model; the clock, whether the device has joined and what
    the radio returned are inputs. */
module EventSender {
  import opened Common
  import opened EventLog
  import opened LoraController

  /** Whether `onPublish` reports an event handled: the device has joined
      and the event either has no frame or its frame was sent. */
  predicate Handled(e: Event, now: int, joined: bool, uplink: Uplink)
  {
    joined && (Frame(e, now).None? || uplink.Answered?)
  }

  /** The sender over an event log and a LoRa controller
      (eventsender.py:12-24). */
  class EventSender {
    const eventLog: EventLog
    const lora: LoraController
    var enabled: bool
    var lastSendEvent: int

    constructor (eventLog: EventLog, lora: LoraController, now: int)
      ensures this.eventLog == eventLog && this.lora == lora && enabled && lastSendEvent == now
    {
      this.eventLog := eventLog;
      this.lora := lora;
      enabled := true;
      lastSendEvent := now;
    }

    /** `onPublish(e)` (eventsender.py:76-97): the event goes to the
        controller only when the device has joined. */
    method OnPublish(e: Event, now: int, joined: bool, uplink: Uplink) returns (handled: bool)
      modifies lora
      ensures handled == Handled(e, now, joined, uplink)
      ensures joined ==> lora.lastEventId == e.id
      ensures !joined ==> lora.lastEventId == old(lora.lastEventId) && lora.noDownlinkCounter == old(lora.noDownlinkCounter)
    {
      handled := false;
      if joined {
        var gap;
        handled, gap := lora.SendEvent(e, now, joined, uplink);
      }
    }

    /** One round of `sendPendingEvents` (eventsender.py:52-73) at clock
        reading `now`: when sending is enabled and the log holds an event,
        the oldest one is published and, if it was handled and the reader
        has not moved meanwhile, pulled from the log. `pulled` says whether
        it was. */
    method SendRound(now: int, joined: bool, uplink: Uplink) returns (pulled: bool)
      requires eventLog.Valid()
      modifies this, eventLog.ring, lora
      ensures eventLog.Valid() && lastSendEvent == now
      ensures pulled <==> (enabled && old(eventLog.Blocks()) != [] &&
        Handled(UnpackEventPayload(Some(old(eventLog.Blocks())[0])).value, now, joined, uplink))
      ensures eventLog.Blocks() == if pulled then old(eventLog.Blocks())[1..] else old(eventLog.Blocks())
    {
      lastSendEvent := now;
      pulled := false;
      if enabled {
        var hasEvents := eventLog.HasEvents();
        if hasEvents {
          var event := eventLog.PeekNextEvent();
          if event.Some? {
            var pos := eventLog.ring.readPosition;
            var handled := OnPublish(event.value, now, joined, uplink);
            if handled && pos == eventLog.ring.readPosition {
              var _ := eventLog.PullNextEvent();
              pulled := true;
            }
          }
        }
      }
    }
  }
}
