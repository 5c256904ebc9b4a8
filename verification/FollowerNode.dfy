/**
 The follower's handler for messages from the leader, and what it keeps: as long
 as messages are segments of the leader's log, the follower's log is a prefix of it.
 */
module FollowerNode {
  import opened BinlogHistory
  import opened Offsets
  import opened Options
  import opened ReplicatedLog

  /** `c` is the greater, by position, of the commit index before and the lesser of the
      end of the log and the leader's commit index. */
  predicate CommitsUpTo(before: LogOffset, last: LogOffset, leader: LogOffset, c: LogOffset) {
    && before.AtMost(c)
    && (last.AtMost(c) || leader.AtMost(c))
    && (c == before || ((c == last || c == leader) && c.AtMost(last) && c.AtMost(leader)))
  }

  class FollowerPartition {
    const limit: nat
    const base: LogOffset
    var log: seq<Logged>
    var term: nat
    var committed: LogOffset
    var state: ReplState
    var session: int

    constructor (limit: nat, base: LogOffset, f: FollowerState)
      ensures this.limit == limit && this.base == base && State() == f
    {
      this.limit, this.base := limit, base;
      log, term, committed, state, session := f.log, f.term, f.committed, f.state, f.session;
    }

    function State(): FollowerState
      reads this
    {
      FollowerState(log, term, committed, state, session)
    }

    method ProcessLeaderLog(rec: LogRecord)
      modifies this`log
      ensures log == AppendLeaderLog(limit, base, old(log), rec)
    {
      var last := LastOffset(base, log);
      if rec.index < last.l.index {
        return;
      }
      log := log + [Logged(rec, PutPosition(last.b, rec.Length(), limit))];
    }

    method ProcessLocalUpdate(leaderCommit: LogOffset)
      modifies this`committed
      ensures committed == FollowCommit(LastOffset(base, log), old(committed), leaderCommit)
      ensures CommitsUpTo(old(committed), LastOffset(base, log), leaderCommit, committed)
    {
      var last := LastOffset(base, log);
      var c := if last.Less(leaderCommit) then last else leaderCommit;
      if !c.AtMost(committed) {
        committed := c;
      }
    }

    /** Offset of the first chip that is not a keep-alive. */
    static method FindBegin(chips: seq<Chip>) returns (begin: LogOffset)
      ensures begin == if FirstCarry(chips) < |chips| then chips[FirstCarry(chips)].offset else ZERO_OFFSET
    {
      begin := ZERO_OFFSET;
      var i := 0;
      assert chips[0..] == chips;
      while i < |chips|
        invariant 0 <= i <= |chips| && begin == ZERO_OFFSET
        invariant FirstCarry(chips) == i + FirstCarry(chips[i..])
      {
        if chips[i].Carry? {
          begin := chips[i].offset;
          break;
        }
        assert chips[i..][1..] == chips[i + 1..];
        i := i + 1;
      }
    }

    /** Term of the last chip that is not a keep-alive. */
    static method FindLastTerm(chips: seq<Chip>) returns (term: nat)
      ensures term == if LastCarry(chips) >= 0 then chips[LastCarry(chips)].offset.l.term else 0
    {
      term := 0;
      var i := |chips| - 1;
      assert chips[..|chips|] == chips;
      while i >= 0
        invariant -1 <= i < |chips| && term == 0
        invariant LastCarry(chips) == LastCarry(chips[..i + 1])
      {
        if chips[i].Carry? {
          term := chips[i].offset.l.term;
          break;
        }
        assert chips[..i + 1][..i] == chips[..i];
        i := i - 1;
      }
    }

    /** Handles one message: term, offset and session checks, the records one by one,
        the commit index, and the acknowledgement. */
    method HandleWriteBinlog(m: Message) returns (ack: Option<Ack>)
      modifies this
      ensures (State(), ack) == Deliver(limit, base, old(State()), m)
      ensures ack.Some? <==> Acknowledges(base, old(State()), m)
      ensures ack.Some? ==> CommitsUpTo(old(committed), LastOffset(base, log), m.commit, committed)
      ensures ack.None? ==> committed == old(committed)
    {
      DeliverExactly(limit, base, State(), m);
      DeliverCommits(limit, base, State(), m);
      var begin := FindBegin(m.chips);
      var lastTerm := FindLastTerm(m.chips);
      var onlyKeepAlive := begin.Same(ZERO_OFFSET);
      if m.term > term {
        term := m.term;
      } else if m.term < term {
        return None;
      }
      if !onlyKeepAlive {
        var last := LastOffset(base, log);
        if last.l.index != 0 && (last.l != m.prev.l || last.b != m.prev.b) {
          state := TryConnect;
          return None;
        }
      }
      var whole := AppendRecords(m.chips);
      if !whole {
        return None;
      }
      ProcessLocalUpdate(m.commit);
      if onlyKeepAlive {
        return Some(Ack(ZERO_OFFSET, ZERO_OFFSET));
      }
      var producer := LastOffset(base, log);
      return Some(Ack(begin, producer.(l := LogicOffset(lastTerm, producer.l.index))));
    }

    /** The loop over the records of a message. */
    method AppendRecords(chips: seq<Chip>) returns (whole: bool)
      modifies this
      ensures (State(), whole) == AppendChips(limit, base, old(State()), chips)
    {
      var i := 0;
      assert chips[0..] == chips;
      while i < |chips|
        invariant 0 <= i <= |chips|
        invariant AppendChips(limit, base, State(), chips[i..]) == AppendChips(limit, base, old(State()), chips)
      {
        assert chips[i..][1..] == chips[i + 1..];
        if state != Connected && state != WaitDbSync {
          return false;
        }
        if session != chips[i].session {
          state := TryConnect;
          return false;
        }
        if chips[i].Carry? {
          if !chips[i].readable {
            state := TryConnect;
            return false;
          }
          ProcessLeaderLog(chips[i].rec);
        }
        i := i + 1;
      }
      return true;
    }
  }

  /* ---------- segments of the leader's log ---------- */

  /** The records of `chips` are those of `log` from entry `i` on, in order. */
  ghost predicate Ships(log: seq<Logged>, chips: seq<Chip>, i: nat)
    decreases |chips|
  {
    chips == [] ||
    if chips[0].KeepAlive? then Ships(log, chips[1..], i)
    else && i < |log| && chips[0].offset == log[i].Offset() && chips[0].rec == log[i].rec
         && Ships(log, chips[1..], i + 1)
  }

  /** A message that carries the log from entry `i` on, with the offset before it. */
  ghost predicate Segment(base: LogOffset, log: seq<Logged>, m: Message, i: nat) {
    && i <= |log| && Ships(log, m.chips, i)
    && (FirstCarry(m.chips) < |m.chips| ==> m.prev == OffsetBefore(base, log, i))
  }

  function Carries(chips: seq<Chip>): (n: nat)
    ensures n <= |chips|
  {
    if chips == [] then 0 else (if chips[0].Carry? then 1 else 0) + Carries(chips[1..])
  }

  /** The next record of the leader's log lands where the leader's own copy is. */
  lemma AppendNext(limit: nat, base: LogOffset, log: seq<Logged>, i: nat)
    requires WellPlaced(limit, base, log) && i < |log|
    ensures AppendLeaderLog(limit, base, log[..i], log[i].rec) == log[..i + 1]
  {
    assert Placed(limit, base, log, i);
    OffsetsIncrease(limit, base, log, 0, i);
    assert LastOffset(base, log[..i]) == OffsetBefore(base, log, i);
  }

  /** Working through a segment that starts where the follower's log ends leaves a
      longer prefix of the leader's log; if nothing interrupts it, all of the segment. */
  lemma {:induction false} AppendSegment(limit: nat, base: LogOffset, log: seq<Logged>, f: FollowerState, chips: seq<Chip>, i: nat) returns (n: nat)
    requires WellPlaced(limit, base, log) && i <= |log|
    requires f.log == log[..i] && Ships(log, chips, i)
    ensures
      var (g, whole) := AppendChips(limit, base, f, chips);
      && i <= n <= |log| && g.log == log[..n]
      && (whole ==> n == i + Carries(chips))
      && g.committed == f.committed && g.term == f.term
    decreases |chips|
  {
    n := i;
    if chips != [] && (f.state == Connected || f.state == WaitDbSync) && f.session == chips[0].session {
      if chips[0].Carry? && !chips[0].readable {
        return;
      }
      if chips[0].KeepAlive? {
        n := AppendSegment(limit, base, log, f, chips[1..], i);
      } else {
        AppendNext(limit, base, log, i);
        n := AppendSegment(limit, base, log, f.(log := log[..i + 1]), chips[1..], i + 1);
      }
    }
  }

  lemma {:induction false} ShipsFirst(log: seq<Logged>, chips: seq<Chip>, i: nat)
    requires Ships(log, chips, i)
    ensures FirstCarry(chips) < |chips| <==> Carries(chips) > 0
    ensures FirstCarry(chips) < |chips| ==> i < |log| && chips[FirstCarry(chips)].offset == log[i].Offset()
    decreases |chips|
  {
    if chips != [] && chips[0].KeepAlive? {
      ShipsFirst(log, chips[1..], i);
    }
  }

  /** Prefix safety of one delivery: whatever segment arrives, in whatever order and
      how often, a follower that holds a prefix of the leader's log and has a non-zero
      last index ends up with a prefix at least as long; and when it acknowledges
      records, it has all of the log up to the end of what it acknowledges. */
  lemma DeliverKeepsPrefix(limit: nat, base: LogOffset, log: seq<Logged>, f: FollowerState, m: Message, i: nat)
    requires WellPlaced(limit, base, log)
    requires f.log <= log && LastOffset(base, f.log).l.index != 0
    requires Segment(base, log, m, i)
    ensures
      var (g, ack) := Deliver(limit, base, f, m);
      && f.log <= g.log <= log
      && (ack.Some? && Carries(m.chips) > 0 ==>
            && i < |log| && ack.value.start == log[i].Offset()
            && |g.log| == i + Carries(m.chips)
            && ack.value.end.Same(LastOffset(base, g.log)))
  {
    ShipsFirst(log, m.chips, i);
    var g := f.(term := m.term);
    var k := |f.log|;
    assert f.log == log[..k];
    if m.term >= f.term {
      if Carries(m.chips) == 0 {
        NoCarries(limit, base, g, m.chips);
      } else {
        OffsetsIncrease(limit, base, log, 0, i + 1);
        assert Placed(limit, base, log, i);
        assert !log[i].Offset().Same(ZERO_OFFSET);
        if LastOffset(base, f.log) == m.prev {
          assert LastOffset(base, f.log) == OffsetBefore(base, log, k);
          OffsetUnique(limit, base, log, i, k);
          var n := AppendSegment(limit, base, log, g, m.chips, i);
        }
      }
    }
  }

  lemma {:induction false} NoCarries(limit: nat, base: LogOffset, f: FollowerState, chips: seq<Chip>)
    requires Carries(chips) == 0
    ensures AppendChips(limit, base, f, chips).0.log == f.log
    decreases |chips|
  {
    if chips != [] && (f.state == Connected || f.state == WaitDbSync) && f.session == chips[0].session {
      NoCarries(limit, base, f, chips[1..]);
    }
  }

  lemma {:induction false} AppendKeepsCommit(limit: nat, base: LogOffset, f: FollowerState, chips: seq<Chip>)
    ensures AppendChips(limit, base, f, chips).0.committed == f.committed
    decreases |chips|
  {
    if chips != [] && (f.state == Connected || f.state == WaitDbSync) && f.session == chips[0].session {
      var f' := if chips[0].KeepAlive? then f else f.(log := AppendLeaderLog(limit, base, f.log, chips[0].rec));
      AppendKeepsCommit(limit, base, f', chips[1..]);
    }
  }

  /** An acknowledged delivery moves the commit index up to the leader's or to the end of
      the follower's log, whichever is earlier; any other leaves it. */
  lemma DeliverCommits(limit: nat, base: LogOffset, f: FollowerState, m: Message)
    ensures
      var (g, ack) := Deliver(limit, base, f, m);
      && (ack.Some? ==> CommitsUpTo(f.committed, LastOffset(base, g.log), m.commit, g.committed))
      && (ack.None? ==> g.committed == f.committed)
  {
    AppendKeepsCommit(limit, base, f.(term := m.term), m.chips);
  }

  /* ---------- exactly when a message is taken in ---------- */

  predicate Receiving(f: FollowerState) {
    f.state == Connected || f.state == WaitDbSync
  }

  predicate Live(f: FollowerState, chips: seq<Chip>) {
    Receiving(f) && forall k | 0 <= k < |chips| :: chips[k].session == f.session && (chips[k].Carry? ==> chips[k].readable)
  }

  /** The message carries no record, or its first one has the zero offset. */
  predicate OnlyKeepAlive(m: Message) {
    var first := FirstCarry(m.chips);
    first == |m.chips| || m.chips[first].offset.Same(ZERO_OFFSET)
  }

  predicate Acknowledges(base: LogOffset, f: FollowerState, m: Message) {
    && m.term >= f.term
    && (OnlyKeepAlive(m) || LastOffset(base, f.log).l.index == 0 || LastOffset(base, f.log) == m.prev)
    && (m.chips == [] || Live(f, m.chips))
  }

  /** The records are worked through to the end unless one is of another session or
      cannot be read; the follower then connects anew. */
  lemma {:induction false} AppendExactly(limit: nat, base: LogOffset, f: FollowerState, chips: seq<Chip>)
    ensures
      var (g, whole) := AppendChips(limit, base, f, chips);
      && (whole <==> chips == [] || Live(f, chips))
      && g.term == f.term && g.session == f.session
      && g.state == if !whole && Receiving(f) then TryConnect else f.state
    decreases |chips|
  {
    if chips != [] && Receiving(f) && f.session == chips[0].session && (chips[0].KeepAlive? || chips[0].readable) {
      var f' := if chips[0].KeepAlive? then f else f.(log := AppendLeaderLog(limit, base, f.log, chips[0].rec));
      AppendExactly(limit, base, f', chips[1..]);
      assert Live(f', chips[1..]) <==> Live(f, chips) by {
        assert forall k | 0 <= k < |chips| :: chips[k] == if k == 0 then chips[0] else chips[1..][k - 1];
      }
    }
  }

  /** A message is acknowledged exactly when its term is not old, it follows the end of
      the log and all of it can be worked through. A message of an old term changes
      nothing; whatever else stops a follower that receives makes it connect anew. */
  lemma DeliverExactly(limit: nat, base: LogOffset, f: FollowerState, m: Message)
    ensures
      var (g, ack) := Deliver(limit, base, f, m);
      && (ack.Some? <==> Acknowledges(base, f, m))
      && (m.term < f.term ==> g == f)
      && (m.term >= f.term ==> g.term == m.term) && g.session == f.session
      && (ack.Some? ==> g.state == f.state)
      && (ack.None? && m.term >= f.term && Receiving(f) ==> g.state == TryConnect)
  {
    AppendExactly(limit, base, f.(term := m.term), m.chips);
    assert Live(f.(term := m.term), m.chips) <==> Live(f, m.chips);
  }

  lemma {:induction false} ShipsLast(log: seq<Logged>, chips: seq<Chip>, i: nat)
    requires Ships(log, chips, i) && Carries(chips) > 0
    ensures LastCarry(chips) >= 0 && i + Carries(chips) <= |log|
    ensures chips[LastCarry(chips)].offset == log[i + Carries(chips) - 1].Offset()
    decreases |chips|
  {
    var i' := if chips[0].KeepAlive? then i else i + 1;
    if Carries(chips[1..]) > 0 {
      ShipsLast(log, chips[1..], i');
      LastCarryRest(chips);
    } else {
      NoneCarried(chips[1..]);
      assert forall j | 1 <= j < |chips| :: chips[j] == chips[1..][j - 1];
    }
  }

  lemma LastCarryRest(chips: seq<Chip>)
    requires chips != [] && LastCarry(chips[1..]) >= 0
    ensures LastCarry(chips) == LastCarry(chips[1..]) + 1
  {
    assert forall j | 1 <= j < |chips| :: chips[j] == chips[1..][j - 1];
  }

  lemma {:induction false} NoneCarried(chips: seq<Chip>)
    requires Carries(chips) == 0
    ensures forall j | 0 <= j < |chips| :: chips[j].KeepAlive?
    decreases |chips|
  {
    if chips != [] {
      NoneCarried(chips[1..]);
      assert forall j | 1 <= j < |chips| :: chips[j] == chips[1..][j - 1];
    }
  }

  /** Progress of one delivery: a live segment that starts where the follower's log ends
      is appended entirely, and acknowledged from its first entry to its last. */
  lemma DeliverProgress(limit: nat, base: LogOffset, log: seq<Logged>, f: FollowerState, m: Message)
    requires WellPlaced(limit, base, log) && f.log <= log
    requires Segment(base, log, m, |f.log|) && Carries(m.chips) > 0
    requires m.term >= f.term && Live(f, m.chips)
    ensures
      var i, n := |f.log|, |f.log| + Carries(m.chips);
      && n <= |log| && i < |log| && Deliver(limit, base, f, m).0.log == log[..n]
      && Deliver(limit, base, f, m).1 == Some(Ack(log[i].Offset(), log[n - 1].Offset()))
  {
    var i := |f.log|;
    assert f.log == log[..i] && LastOffset(base, f.log) == OffsetBefore(base, log, i);
    ShipsFirst(log, m.chips, i);
    ShipsLast(log, m.chips, i);
    OffsetsIncrease(limit, base, log, 0, i + 1);
    assert !log[i].Offset().Same(ZERO_OFFSET);
    DeliverExactly(limit, base, f, m);
    var n := AppendSegment(limit, base, log, f.(term := m.term), m.chips, i);
  }

  /** A live message without records changes no log and is acknowledged as such. */
  lemma PingAnswered(limit: nat, base: LogOffset, f: FollowerState, m: Message)
    requires Carries(m.chips) == 0 && m.term >= f.term && Live(f, m.chips)
    ensures Deliver(limit, base, f, m).0.log == f.log
    ensures Deliver(limit, base, f, m).1 == Some(Ack(ZERO_OFFSET, ZERO_OFFSET))
  {
    NoneCarried(m.chips);
    NoCarries(limit, base, f.(term := m.term), m.chips);
    DeliverExactly(limit, base, f, m);
  }

  /* ---------- where the handler does not protect the log ---------- */

  /** The chip carries an entry of the log, the one its index names. */
  predicate Names(base: LogOffset, log: seq<Logged>, chip: Chip)
    requires chip.Carry?
  {
    && base.l.index < chip.rec.index <= base.l.index + |log|
    && chip.rec == log[chip.rec.index - base.l.index - 1].rec
    && chip.offset == log[chip.rec.index - base.l.index - 1].Offset()
  }

  /** The records of `chips` are entries of `log`, in any order. */
  ghost predicate FromLog(base: LogOffset, log: seq<Logged>, chips: seq<Chip>) {
    forall k | 0 <= k < |chips| :: chips[k].Carry? ==> Names(base, log, chips[k])
  }

  /** After an entry of index `last`, every record is either old enough to be dropped or
      exactly the next one: none repeats the last entry and none leaves a gap. Only the
      chips up to the first unreadable one or the first of another session count. */
  predicate Fits(session: int, last: nat, chips: seq<Chip>)
    decreases |chips|
  {
    || chips == []
    || chips[0].session != session
    || (chips[0].Carry? && !chips[0].readable)
    || if chips[0].KeepAlive? then Fits(session, last, chips[1..])
       else || (chips[0].rec.index < last && Fits(session, last, chips[1..]))
            || (chips[0].rec.index == last + 1 && Fits(session, last + 1, chips[1..]))
  }

  /** The message as a follower finds it that cannot read chip `bad`. */
  function Garbled(m: Message, bad: nat): Message {
    if bad < |m.chips| && m.chips[bad].Carry? then m.(chips := m.chips[bad := m.chips[bad].(readable := false)]) else m
  }

  /** What fits still fits when reading stops early. */
  lemma {:induction false} GarbledFits(session: int, last: nat, chips: seq<Chip>, chips': seq<Chip>)
    requires Fits(session, last, chips) && |chips'| == |chips|
    requires forall k | 0 <= k < |chips| ::
               chips'[k] == chips[k] || (chips[k].Carry? && chips'[k] == chips[k].(readable := false))
    ensures Fits(session, last, chips')
    decreases |chips|
  {
    if chips != [] && chips[0].session == session && (chips'[0].KeepAlive? || chips'[0].readable) {
      assert chips'[0] == chips[0];
      var next := if chips[0].Carry? && chips[0].rec.index == last + 1 && Fits(session, last + 1, chips[1..]) then last + 1 else last;
      GarbledFits(session, next, chips[1..], chips'[1..]);
    }
  }

  /** The records of a message fit after the offset it claims to follow. */
  predicate MessageFits(m: Message) {
    m.chips == [] || Fits(m.chips[0].session, m.prev.l.index, m.chips)
  }

  lemma {:induction false} AppendOnlyExtends(limit: nat, base: LogOffset, f: FollowerState, chips: seq<Chip>)
    ensures f.log <= AppendChips(limit, base, f, chips).0.log
    decreases |chips|
  {
    if chips != [] && (f.state == Connected || f.state == WaitDbSync) && f.session == chips[0].session {
      var f' := if chips[0].KeepAlive? then f else f.(log := AppendLeaderLog(limit, base, f.log, chips[0].rec));
      AppendOnlyExtends(limit, base, f', chips[1..]);
    }
  }

  /** A batch of log entries, once its offset check has passed, leaves the follower
      with a prefix of the leader's log exactly when it fits: an entry whose index
      equals the last one is not dropped but appended a second time. */
  lemma {:induction false} BatchSafeIffFits(limit: nat, base: LogOffset, log: seq<Logged>, f: FollowerState, chips: seq<Chip>)
    requires WellPlaced(limit, base, log)
    requires f.log <= log && FromLog(base, log, chips) && Receiving(f)
    ensures AppendChips(limit, base, f, chips).0.log <= log <==> Fits(f.session, LastOffset(base, f.log).l.index, chips)
    decreases |chips|
  {
    if chips != [] && chips[0].session == f.session && (chips[0].KeepAlive? || chips[0].readable) {
      if chips[0].KeepAlive? {
        BatchSafeIffFits(limit, base, log, f, chips[1..]);
      } else {
        var n, p := |f.log|, chips[0].rec.index - base.l.index - 1;
        LastIndex(limit, base, log, f.log);
        assert Names(base, log, chips[0]);
        var f' := f.(log := AppendLeaderLog(limit, base, f.log, chips[0].rec));
        if p + 1 < n {
          BatchSafeIffFits(limit, base, log, f, chips[1..]);
        } else if p == n {
          AppendNext(limit, base, log, n);
          assert f.log == log[..n];
          LastIndex(limit, base, log, f'.log);
          BatchSafeIffFits(limit, base, log, f', chips[1..]);
        } else {
          AppendOnlyExtends(limit, base, f', chips[1..]);
          assert f'.log[n].rec.index == base.l.index + 1 + p;
          if n < |log| {
            assert Placed(limit, base, log, n);
          }
          assert !(f'.log <= log);
        }
      }
    }
  }

  lemma LastIndex(limit: nat, base: LogOffset, log: seq<Logged>, front: seq<Logged>)
    requires WellPlaced(limit, base, log) && front <= log
    ensures LastOffset(base, front) == OffsetBefore(base, log, |front|)
    ensures LastOffset(base, front).l.index == base.l.index + |front|
  {
    OffsetsIncrease(limit, base, log, 0, |front|);
  }

  /** The follower takes in the records of a message. */
  predicate Accepts(base: LogOffset, f: FollowerState, m: Message) {
    m.term >= f.term && Receiving(f) && LastOffset(base, f.log) == m.prev
  }

  lemma {:induction false} NothingCarried(session: int, last: nat, chips: seq<Chip>)
    requires FirstCarry(chips) == |chips|
    ensures Fits(session, last, chips) && Carries(chips) == 0
    decreases |chips|
  {
    if chips != [] {
      NothingCarried(session, last, chips[1..]);
    }
  }

  /** Exact condition for one delivery: a message made of log entries, in whatever order,
      leaves the follower's log a prefix of the leader's exactly when it is not taken in
      or its records fit. */
  lemma DeliverSafeIffFits(limit: nat, base: LogOffset, log: seq<Logged>, f: FollowerState, m: Message)
    requires WellPlaced(limit, base, log)
    requires f.log <= log && LastOffset(base, f.log).l.index != 0
    requires FromLog(base, log, m.chips)
    ensures f.log <= Deliver(limit, base, f, m).0.log
    ensures Deliver(limit, base, f, m).0.log <= log <==> (Accepts(base, f, m) ==> Fits(f.session, m.prev.l.index, m.chips))
  {
    var g := f.(term := m.term);
    var first := FirstCarry(m.chips);
    AppendOnlyExtends(limit, base, g, m.chips);
    if first == |m.chips| {
      NothingCarried(f.session, m.prev.l.index, m.chips);
      NoCarries(limit, base, g, m.chips);
    } else {
      CarriedOffset(limit, base, log, m.chips[first]);
      if Receiving(f) {
        BatchSafeIffFits(limit, base, log, g, m.chips);
      }
    }
  }

  lemma CarriedOffset(limit: nat, base: LogOffset, log: seq<Logged>, chip: Chip)
    requires WellPlaced(limit, base, log) && chip.Carry? && Names(base, log, chip)
    ensures !chip.offset.Same(ZERO_OFFSET)
  {
    var i := chip.rec.index - base.l.index - 1;
    OffsetsIncrease(limit, base, log, 0, i + 1);
  }

  /** A message that fits is safe for every follower, and one that does not is unsafe for
      any follower of its session that is up to the offset it claims to follow. */
  lemma FittingIsSafe(limit: nat, base: LogOffset, log: seq<Logged>, f: FollowerState, m: Message)
    requires WellPlaced(limit, base, log)
    requires f.log <= log && LastOffset(base, f.log).l.index != 0
    requires FromLog(base, log, m.chips)
    ensures MessageFits(m) ==> f.log <= Deliver(limit, base, f, m).0.log <= log
    ensures !MessageFits(m) && Accepts(base, f, m) && f.session == m.chips[0].session ==> !(Deliver(limit, base, f, m).0.log <= log)
  {
    DeliverSafeIffFits(limit, base, log, f, m);
  }

  /** A segment of the log fits. */
  lemma {:induction false} SegmentFits(limit: nat, base: LogOffset, log: seq<Logged>, session: int, chips: seq<Chip>, i: nat)
    requires WellPlaced(limit, base, log) && i <= |log| && Ships(log, chips, i)
    ensures FromLog(base, log, chips) && Fits(session, base.l.index + i, chips)
    decreases |chips|
  {
    if chips != [] {
      var i' := if chips[0].KeepAlive? then i else i + 1;
      if chips[0].Carry? {
        assert Placed(limit, base, log, i);
      }
      SegmentFits(limit, base, log, session, chips[1..], i');
      forall k | 0 <= k < |chips| && chips[k].Carry?
        ensures Names(base, log, chips[k])
      {
        assert k > 0 ==> chips[k] == chips[1..][k - 1];
      }
    }
  }

  /** Tasks of two activations in one batch: the entry after the follower's last, and the
      same entry again. The follower ends with it twice. */
  lemma MixedBatchRepeats(limit: nat, base: LogOffset, log: seq<Logged>, f: FollowerState, chip: Chip)
    requires WellPlaced(limit, base, log) && f.log < log && Receiving(f)
    requires chip.Carry? && chip.readable && chip.session == f.session && Names(base, log, chip) && chip.rec == log[|f.log|].rec
    ensures !(AppendChips(limit, base, f, [chip, chip]).0.log <= log)
  {
    var chips := [chip, chip];
    assert Placed(limit, base, log, |f.log|);
    LastIndex(limit, base, log, f.log);
    assert chips[1..] == [chip];
    assert !Fits(f.session, chip.rec.index, [chip]);
    BatchSafeIffFits(limit, base, log, f, chips);
  }

  /** A follower whose last index is 0 skips the offset check: it keeps a prefix of
      the leader's log only if the segment it gets first is the first one. */
  lemma FirstSegmentUnchecked(limit: nat, base: LogOffset, log: seq<Logged>, f: FollowerState, m: Message, i: nat)
    requires WellPlaced(limit, base, log) && base.l.index == 0 && f.log == []
    requires Segment(base, log, m, i) && Carries(m.chips) > 0
    requires m.term >= f.term && Live(f, m.chips)
    ensures Deliver(limit, base, f, m).0.log <= log <==> i == 0
  {
    ShipsFirst(log, m.chips, i);
    OffsetsIncrease(limit, base, log, 0, i + 1);
    var g := f.(term := m.term);
    if i == 0 {
      var n := AppendSegment(limit, base, log, g, m.chips, 0);
    } else {
      FirstAppended(limit, base, log, g, m.chips, i);
      assert Placed(limit, base, log, 0);
      assert Placed(limit, base, log, i);
    }
  }

  lemma {:induction false} FirstAppended(limit: nat, base: LogOffset, log: seq<Logged>, f: FollowerState, chips: seq<Chip>, i: nat)
    requires f.log == [] && base.l.index == 0 && Live(f, chips)
    requires Ships(log, chips, i) && Carries(chips) > 0
    ensures
      var g := AppendChips(limit, base, f, chips).0;
      |g.log| > 0 && i < |log| && g.log[0].rec == log[i].rec
    decreases |chips|
  {
    if chips[0].KeepAlive? {
      FirstAppended(limit, base, log, f, chips[1..], i);
    } else {
      AppendOnlyExtends(limit, base, f.(log := AppendLeaderLog(limit, base, f.log, chips[0].rec)), chips[1..]);
    }
  }
}
