/** The event-log settings of the device configuration (config.py:36-38). */
module Config {
  /** Bytes in one event block: ID, command, timestamp, data, padding. */
  const EventLogBlockSize := 18
  /** Number of events the log's ring buffer is sized for. */
  const EventLogMaxEvents := 1000
  /** The largest event ID before the counter rolls over to 0. */
  const EventLogMaxEventId := 0xFFFE
}
