/** Log offsets: a physical binlog position together with a term and a logical index. */
module Offsets {
  import opened BinlogHistory

  datatype LogicOffset = LogicOffset(term: nat, index: nat)

  /** Offsets are compared by their physical position alone. */
  datatype LogOffset = LogOffset(b: Position, l: LogicOffset) {
    predicate Less(that: LogOffset) { b.Less(that.b) }

    predicate AtMost(that: LogOffset) { b.AtMost(that.b) }

    predicate Same(that: LogOffset) { b == that.b }
  }

  const ZERO_POSITION := Position(0, 0)
  const ZERO_OFFSET := LogOffset(ZERO_POSITION, LogicOffset(0, 0))
}
