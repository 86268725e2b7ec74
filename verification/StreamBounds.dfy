/** How long a relayed stream may stay open, and how large its messages may be. */
module StreamBounds {

  const MINUTE := 60 * 1_000_000_000
  const DEFAULT_STREAM_DURATION := 5 * MINUTE
  const MAX_STREAM_DURATION_LIMIT := 30 * MINUTE
  const DEFAULT_STREAM_MESSAGE_LIMIT := 0x10_0000

  /** What a method declares: zero means the default. Durations are nanoseconds. */
  datatype Bounds = Bounds(maxDuration: int, maxMessageBytes: int, maxResponseBytes: int)

  datatype BoundsFault = UnaryWithStreamBounds | DurationOutside | NegativeMessageBytes | StreamWithResponseBytes

  predicate BoundsAccepted(streams: bool, b: Bounds) {
    if streams then 0 <= b.maxDuration <= MAX_STREAM_DURATION_LIMIT && b.maxMessageBytes >= 0 && b.maxResponseBytes == 0
    else b.maxDuration == 0 && b.maxMessageBytes == 0
  }

  function StreamDuration(b: Bounds): int {
    if b.maxDuration > 0 then b.maxDuration else DEFAULT_STREAM_DURATION
  }

  function StreamMessageLimit(b: Bounds): int {
    if b.maxMessageBytes > 0 then b.maxMessageBytes else DEFAULT_STREAM_MESSAGE_LIMIT
  }

  /** Accepted bounds keep every stream's life between nothing and half an hour,
      five minutes where none is declared, and let some message through, up to a
      mebibyte where no other limit is. */
  lemma AcceptedBoundsHold(b: Bounds)
    requires BoundsAccepted(true, b)
    ensures StreamDuration(b) == if b.maxDuration == 0 then 300_000_000_000 else b.maxDuration
    ensures StreamMessageLimit(b) == if b.maxMessageBytes == 0 then 1_048_576 else b.maxMessageBytes
    ensures 0 < StreamDuration(b) <= 1_800_000_000_000 && StreamMessageLimit(b) > 0
  {
  }
}
