/**
 The replicated log as leader and follower see it: log records with the physical
 positions their own binlogs gave them, and the follower's handling of a message
 from the leader.
 */
module ReplicatedLog {
  import opened BinlogFormat
  import opened BinlogHistory
  import opened Offsets
  import opened Options

  /** Bytes of an encoded log record before its content. */
  const RECORD_HEADER: nat := 34

  datatype LogRecord = LogRecord(term: nat, index: nat, body: seq<byte>) {
    function Length(): nat { RECORD_HEADER + |body| }
  }

  /** A record in a log and the producer position after it. */
  datatype Logged = Logged(rec: LogRecord, end: Position) {
    function Offset(): LogOffset { LogOffset(end, LogicOffset(rec.term, rec.index)) }
  }

  /** Offset of the log just before entry `i`. */
  function OffsetBefore(base: LogOffset, log: seq<Logged>, i: nat): LogOffset
    requires i <= |log|
  {
    if i == 0 then base else log[i - 1].Offset()
  }

  function LastOffset(base: LogOffset, log: seq<Logged>): LogOffset {
    OffsetBefore(base, log, |log|)
  }

  /** Entry `i` lies where putting it after its predecessor leads, and has the next index. */
  predicate Placed(limit: nat, base: LogOffset, log: seq<Logged>, i: nat)
    requires i < |log|
  {
    && log[i].end == PutPosition(OffsetBefore(base, log, i).b, log[i].rec.Length(), limit)
    && log[i].rec.index == base.l.index + 1 + i
  }

  ghost predicate WellPlaced(limit: nat, base: LogOffset, log: seq<Logged>) {
    forall i | 0 <= i < |log| :: Placed(limit, base, log, i)
  }

  lemma {:induction false} OffsetsIncrease(limit: nat, base: LogOffset, log: seq<Logged>, i: nat, j: nat)
    requires WellPlaced(limit, base, log) && i <= j <= |log|
    ensures OffsetBefore(base, log, i).AtMost(OffsetBefore(base, log, j))
    ensures i < j ==> OffsetBefore(base, log, i).Less(OffsetBefore(base, log, j))
    ensures OffsetBefore(base, log, j).l.index == base.l.index + j
  {
    if j > 0 {
      assert Placed(limit, base, log, j - 1);
    }
    if i < j {
      OffsetsIncrease(limit, base, log, i, j - 1);
    }
  }

  lemma PrefixPlaced(limit: nat, base: LogOffset, log: seq<Logged>, n: nat)
    requires WellPlaced(limit, base, log) && n <= |log|
    ensures WellPlaced(limit, base, log[..n])
  {
    forall i | 0 <= i < n
      ensures Placed(limit, base, log[..n], i)
    {
      assert Placed(limit, base, log, i);
    }
  }

  /** A physical position names one place in the log. */
  lemma OffsetUnique(limit: nat, base: LogOffset, log: seq<Logged>, i: nat, j: nat)
    requires WellPlaced(limit, base, log) && i <= |log| && j <= |log|
    ensures OffsetBefore(base, log, i).AtMost(OffsetBefore(base, log, j)) <==> i <= j
    ensures OffsetBefore(base, log, i).Same(OffsetBefore(base, log, j)) <==> i == j
  {
    if i <= j {
      OffsetsIncrease(limit, base, log, i, j);
    } else {
      OffsetsIncrease(limit, base, log, j, i);
    }
  }

  /** The leader appends a record: the next index, and the position its binlog reaches. */
  function Propose(limit: nat, base: LogOffset, log: seq<Logged>, term: nat, body: seq<byte>): seq<Logged> {
    var last := LastOffset(base, log);
    var rec := LogRecord(term, last.l.index + 1, body);
    log + [Logged(rec, PutPosition(last.b, rec.Length(), limit))]
  }

  lemma ProposeKeepsPlaces(limit: nat, base: LogOffset, log: seq<Logged>, term: nat, body: seq<byte>)
    requires WellPlaced(limit, base, log)
    ensures WellPlaced(limit, base, Propose(limit, base, log, term, body))
    ensures log <= Propose(limit, base, log, term, body)
    ensures
      var log' := Propose(limit, base, log, term, body);
      |log'| == |log| + 1 && log'[|log|].rec == LogRecord(term, base.l.index + |log| + 1, body)
  {
    var log' := Propose(limit, base, log, term, body);
    OffsetsIncrease(limit, base, log, 0, |log|);
    forall i | 0 <= i < |log'|
      ensures Placed(limit, base, log', i)
    {
      assert OffsetBefore(base, log', i) == OffsetBefore(base, log, i);
      if i < |log| {
        assert Placed(limit, base, log, i);
      }
    }
  }

  /* ---------- the follower ---------- */

  datatype ReplState = Connected | WaitDbSync | TryConnect | NotConnected

  /** One binlog entry of a message; without a record it is a keep-alive. A record may
      turn out not to be readable, as an item or as a command. */
  datatype Chip = KeepAlive(session: int) | Carry(session: int, offset: LogOffset, rec: LogRecord, readable: bool)

  datatype Message = Message(term: nat, prev: LogOffset, commit: LogOffset, chips: seq<Chip>)

  datatype Ack = Ack(start: LogOffset, end: LogOffset)

  datatype FollowerState = FollowerState(log: seq<Logged>, term: nat, committed: LogOffset, state: ReplState, session: int)

  /** The first chip with a record, the length of the sequence if there is none. */
  function FirstCarry(chips: seq<Chip>): (i: nat)
    ensures i <= |chips| && (i < |chips| ==> chips[i].Carry?)
    ensures forall j | 0 <= j < i :: chips[j].KeepAlive?
  {
    if chips == [] || chips[0].Carry? then 0 else 1 + FirstCarry(chips[1..])
  }

  /** The last chip with a record, -1 if there is none. */
  function LastCarry(chips: seq<Chip>): (i: int)
    ensures -1 <= i < |chips| && (i >= 0 ==> chips[i].Carry?)
    ensures forall j | i < j < |chips| :: chips[j].KeepAlive?
  {
    if chips == [] then -1 else if chips[|chips| - 1].Carry? then |chips| - 1 else LastCarry(chips[..|chips| - 1])
  }

  /** Appends a record from the leader at the follower's own producer position. A
      record with an index below the last one is dropped. */
  function AppendLeaderLog(limit: nat, base: LogOffset, log: seq<Logged>, rec: LogRecord): seq<Logged> {
    var last := LastOffset(base, log);
    if rec.index < last.l.index then log
    else log + [Logged(rec, PutPosition(last.b, rec.Length(), limit))]
  }

  /** The offset check is skipped by a follower whose last index is 0. */
  predicate PrevMatches(last: LogOffset, prev: LogOffset) {
    last.l.index == 0 || last == prev
  }

  /** Works through the chips; the flag tells whether it got to the end. */
  function AppendChips(limit: nat, base: LogOffset, f: FollowerState, chips: seq<Chip>): (r: (FollowerState, bool))
    decreases |chips|
  {
    if chips == [] then (f, true)
    else if f.state != Connected && f.state != WaitDbSync then (f, false)
    else if f.session != chips[0].session then (f.(state := TryConnect), false)
    else if chips[0].KeepAlive? then AppendChips(limit, base, f, chips[1..])
    else if !chips[0].readable then (f.(state := TryConnect), false)
    else AppendChips(limit, base, f.(log := AppendLeaderLog(limit, base, f.log, chips[0].rec)), chips[1..])
  }

  /** The commit index a follower takes over: not past its own log. */
  function FollowCommit(last: LogOffset, committed: LogOffset, leaderCommit: LogOffset): LogOffset {
    var c := if last.Less(leaderCommit) then last else leaderCommit;
    if c.AtMost(committed) then committed else c
  }

  /** What a follower does with a message, and the acknowledgement it sends. */
  function Deliver(limit: nat, base: LogOffset, f: FollowerState, m: Message): (r: (FollowerState, Option<Ack>)) {
    var first := FirstCarry(m.chips);
    var onlyKeepAlive := first == |m.chips| || m.chips[first].offset.Same(ZERO_OFFSET);
    if m.term < f.term then (f, None)
    else
      var g := f.(term := m.term);
      if !onlyKeepAlive && !PrevMatches(LastOffset(base, g.log), m.prev) then (g.(state := TryConnect), None)
      else
        var (h, whole) := AppendChips(limit, base, g, m.chips);
        if !whole then (h, None)
        else
          var last := LastOffset(base, h.log);
          var k := h.(committed := FollowCommit(last, h.committed, m.commit));
          if onlyKeepAlive then (k, Some(Ack(ZERO_OFFSET, ZERO_OFFSET)))
          else (k, Some(Ack(m.chips[first].offset, last.(l := LogicOffset(m.chips[LastCarry(m.chips)].offset.l.term, last.l.index)))))
  }
}
