/** Values shared by the whole live-log pipeline. */
module LogTypes {

  datatype FrameSource = Stdout | Stderr

  /** Where a line's timestamp comes from: the text Docker put in front of it, or the server's clock. */
  datatype Timestamp = Docker(text: string) | ServerClock

  datatype LogLine = LogLine(ts: Timestamp, source: FrameSource, text: string)

  /** `dropped` counts the lines discarded since the previous batch. */
  datatype LogsBatch = LogsBatch(container: string, lines: seq<LogLine>, dropped: nat)
}
