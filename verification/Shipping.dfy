/**
 How the leader ships its log to one follower: entries are read into write tasks
 that carry the offset sent before them, tasks queue up, and the queue is cut into
 messages.
 */
module Shipping {
  import opened BinlogHistory
  import opened Offsets
  import opened SyncWindow
  import opened ReplicatedLog
  import opened FollowerNode

  const BATCH_TASKS: nat := 100
  const BATCHES_PER_ROUND: nat := 40
  const MAX_BATCH_BYTES: nat := 0x2000_0000

  datatype Task = Task(chip: Chip, prev: LogOffset) {
    function Bytes(): nat { if chip.KeepAlive? then 0 else chip.rec.Length() }
  }

  /** Ships entry `i`. */
  function TaskFor(base: LogOffset, log: seq<Logged>, session: int, i: nat): Task
    requires i < |log|
  {
    Task(Carry(session, log[i].Offset(), log[i].rec, true), OffsetBefore(base, log, i))
  }

  /** `tasks` ship the entries from `i` on, without gap or repetition. */
  ghost predicate ShipsFrom(base: LogOffset, log: seq<Logged>, session: int, tasks: seq<Task>, i: nat) {
    && i + |tasks| <= |log|
    && forall k | 0 <= k < |tasks| :: tasks[k] == TaskFor(base, log, session, i + k)
  }

  /** What the leader keeps for one follower: nothing is read for it before it has been
      activated. */
  datatype Session = Session(
    id: int,
    active: bool,
    next: nat,  // entries the binlog reader has passed
    sent: LogOffset,
    acked: LogOffset,
    win: seq<WinItem>)

  function NewSession(id: int): Session {
    Session(id, false, 0, ZERO_OFFSET, ZERO_OFFSET, [])
  }

  /** Activation, the first or a later one: reading starts again after `k` entries, and
      the window stays as it is. */
  function Activated(base: LogOffset, log: seq<Logged>, s: Session, k: nat): Session
    requires k <= |log|
  {
    s.(active := true, next := k, sent := OffsetBefore(base, log, k), acked := OffsetBefore(base, log, k))
  }

  function WinItemFor(log: seq<Logged>, i: nat): WinItem
    requires i < |log|
  {
    WinItem(log[i].Offset(), log[i].rec.Length(), false)
  }

  /** The session has read `next` entries. */
  ghost predicate SessionPlaced(base: LogOffset, log: seq<Logged>, s: Session) {
    s.active ==> s.next <= |log| && s.sent == OffsetBefore(base, log, s.next)
  }

  function WinItemsFor(log: seq<Logged>, i: nat, n: nat): (items: seq<WinItem>)
    requires i + n <= |log|
    ensures |items| == n && forall k | 0 <= k < n :: items[k] == WinItemFor(log, i + k)
  {
    seq(n, k requires 0 <= k < n => WinItemFor(log, i + k))
  }

  function TasksFor(base: LogOffset, log: seq<Logged>, id: int, i: nat, n: nat): (tasks: seq<Task>)
    requires i + n <= |log|
    ensures |tasks| == n && forall k | 0 <= k < n :: tasks[k] == TaskFor(base, log, id, i + k)
  {
    seq(n, k requires 0 <= k < n => TaskFor(base, log, id, i + k))
  }

  /** The session after reading `n` more entries into its window. */
  function ReadInto(base: LogOffset, log: seq<Logged>, s: Session, n: nat): Session
    requires s.next + n <= |log|
  {
    s.(next := s.next + n,
       sent := OffsetBefore(base, log, s.next + n),
       win := s.win + WinItemsFor(log, s.next, n))
  }

  /** Bytes of the records from entry `i` up to `j`. */
  function Sent(log: seq<Logged>, i: nat, j: nat): nat
    requires i <= j <= |log|
  {
    if i == j then 0 else Sent(log, i, j - 1) + log[j - 1].rec.Length()
  }

  class SlaveSession {
    const base: LogOffset
    const window: Window
    var id: int
    var active: bool
    var next: nat
    var sent: LogOffset
    var acked: LogOffset
    var queue: seq<Task>  // tasks waiting to be sent to this follower

    constructor (base: LogOffset, id: int)
      ensures this.base == base && fresh(window)
      ensures State() == NewSession(id) && queue == []
    {
      this.base, this.id := base, id;
      window := new Window();
      active, next, sent, acked, queue := false, 0, ZERO_OFFSET, ZERO_OFFSET, [];
    }

    ghost function State(): Session
      reads this, window
    {
      Session(id, active, next, sent, acked, window.win)
    }

    /** Shipping starts, or starts again, after `k` entries, at the offset the follower
        reported. What is in the window and in the queue stays there. */
    method Activate(ghost log: seq<Logged>, k: nat, offset: LogOffset)
      requires k <= |log| && offset == OffsetBefore(base, log, k)
      modifies this
      ensures State() == Activated(base, log, old(State()), k)
      ensures queue == old(queue)
    {
      active, next, sent, acked := true, k, offset, offset;
    }

    /** Reads up to `count` entries into the window and the write queue; it stops early
        only at the end of the log or when too many bytes are unacknowledged. Without
        an activation there is no reader and nothing happens. */
    method ReadBinlogFileToWq(log: seq<Logged>, count: nat)
      requires SessionPlaced(base, log, State())
      modifies this, window
      ensures !old(active) ==> State() == old(State()) && queue == old(queue)
      ensures old(active) ==> old(next) <= next <= |log| && next <= old(next) + count
      ensures old(active) ==> State() == ReadInto(base, log, old(State()), next - old(next))
      ensures old(active) ==> queue == old(queue) + TasksFor(base, log, id, old(next), next - old(next))
      ensures old(active) && next < old(next) + count ==> next == |log| || window.totalSize > 2 * MAX_BATCH_BYTES
      ensures old(active) ==> window.totalSize == old(window.totalSize) + Sent(log, old(next), next)
    {
      if !active {
        return;
      }
      var tasks: seq<Task> := [];
      var i := 0;
      while i < count
        invariant 0 <= i <= count && next == old(next) + i <= |log|
        invariant queue == old(queue) && acked == old(acked) && id == old(id) && active
        invariant sent == OffsetBefore(base, log, next)
        invariant tasks == TasksFor(base, log, id, old(next), i)
        invariant window.win == old(window.win) + WinItemsFor(log, old(next), i)
        invariant window.totalSize == old(window.totalSize) + Sent(log, old(next), next)
      {
        if window.totalSize > 2 * MAX_BATCH_BYTES {
          break;
        }
        if next == |log| {
          break;
        }
        assert WinItemsFor(log, old(next), i + 1) == WinItemsFor(log, old(next), i) + [WinItemFor(log, next)];
        var sentOffset := log[next].Offset();
        window.Push(WinItem(sentOffset, log[next].rec.Length(), false));
        tasks := tasks + [Task(Carry(id, sentOffset, log[next].rec, true), sent)];
        sent := sentOffset;
        next := next + 1;
        i := i + 1;
      }
      queue := queue + tasks;
    }

    /** An acknowledgement moves the session's acknowledged offset to the end of the
        acknowledged front of its window. */
    method Update(start: LogOffset, end: LogOffset) returns (ok: bool, updated: LogOffset)
      modifies this, window
      ensures ok <==> old(RangeFound(window.win, start, end))
      ensures !ok ==> State() == old(State())
      ensures ok ==> State() == AckSession(old(State()), start, end) && updated == acked
      ensures ok ==>
                var marked := Acknowledged(old(window.win), start, end);
                var n := AckedFront(marked);
                && window.win == marked[n..]
                && acked == if n > 0 && !marked[n - 1].offset.Same(ZERO_OFFSET) then marked[n - 1].offset else old(acked)
      ensures queue == old(queue)
    {
      ok, updated := window.Update(start, end, ZERO_OFFSET);
      if !ok {
        return;
      }
      if updated.Same(ZERO_OFFSET) {
        updated := acked;
        return;
      }
      acked := updated;
    }
  }

  /** The session after an accepted acknowledgement. */
  function AckSession(s: Session, start: LogOffset, end: LogOffset): Session
    requires RangeFound(s.win, start, end)
  {
    var marked := Acknowledged(s.win, start, end);
    var n := AckedFront(marked);
    s.(win := marked[n..],
       acked := if n == 0 || marked[n - 1].offset.Same(ZERO_OFFSET) then s.acked else marked[n - 1].offset)
  }

  function Bytes(tasks: seq<Task>): nat {
    if tasks == [] then 0 else Bytes(tasks[..|tasks| - 1]) + tasks[|tasks| - 1].Bytes()
  }

  function Concat(batches: seq<seq<Task>>): seq<Task> {
    if batches == [] then [] else Concat(batches[..|batches| - 1]) + batches[|batches| - 1]
  }

  /** Takes one batch off the front of the queue: at most a hundred tasks, and no more
      bytes than one message may have. */
  method TakeBatch(queue: seq<Task>) returns (batch: seq<Task>, rest: seq<Task>)
    ensures batch + rest == queue
    ensures |batch| <= BATCH_TASKS && Bytes(batch) <= MAX_BATCH_BYTES
    ensures rest != [] ==> |batch| == BATCH_TASKS || Bytes(batch) + rest[0].Bytes() > MAX_BATCH_BYTES
    ensures queue != [] && queue[0].Bytes() > MAX_BATCH_BYTES ==> batch == []
  {
    var limit := if |queue| > BATCH_TASKS then BATCH_TASKS else |queue|;
    batch, rest := [], queue;
    var size := 0;
    var i := 0;
    while i < limit
      invariant 0 <= i <= limit && |batch| == i && batch + rest == queue
      invariant size == Bytes(batch) <= MAX_BATCH_BYTES
      invariant i > 0 ==> queue[0].Bytes() <= MAX_BATCH_BYTES
    {
      size := size + rest[0].Bytes();
      if size > MAX_BATCH_BYTES {
        break;
      }
      assert (batch + [rest[0]])[..i] == batch;
      batch := batch + [rest[0]];
      rest := rest[1..];
      i := i + 1;
    }
  }

  lemma ConcatSnoc(batches: seq<seq<Task>>, batch: seq<Task>)
    ensures Concat(batches + [batch]) == Concat(batches) + batch
  {
    assert (batches + [batch])[..|batches|] == batches;
  }

  predicate BatchOk(b: seq<Task>) {
    0 < |b| <= BATCH_TASKS && Bytes(b) <= MAX_BATCH_BYTES
  }

  /** One round over a queue: nothing is lost or reordered, no message is empty, and
      the round stops early only on a task too large for any message. */
  method ConsumeWriteQueue(queue: seq<Task>) returns (batches: seq<seq<Task>>, rest: seq<Task>)
    ensures Concat(batches) + rest == queue
    ensures |batches| <= BATCHES_PER_ROUND
    ensures forall k | 0 <= k < |batches| :: BatchOk(batches[k])
    ensures |batches| == BATCHES_PER_ROUND || rest == [] || rest[0].Bytes() > MAX_BATCH_BYTES
  {
    batches, rest := [], queue;
    var i := 0;
    while i < BATCHES_PER_ROUND
      invariant 0 <= i <= BATCHES_PER_ROUND && |batches| <= i
      invariant |batches| == i || (rest != [] && rest[0].Bytes() > MAX_BATCH_BYTES)
      invariant Concat(batches) + rest == queue
      invariant forall k | 0 <= k < |batches| :: BatchOk(batches[k])
    {
      if rest == [] {
        break;
      }
      var batch, rest' := TakeBatch(rest);
      if batch != [] {
        ConcatSnoc(batches, batch);
        batches := batches + [batch];
      }
      rest := rest';
      i := i + 1;
    }
  }

  /** The message for a batch: its chips, and the offset before the first record in it. */
  function MessageFor(tasks: seq<Task>, commit: LogOffset, term: nat): Message {
    var chips := seq(|tasks|, k requires 0 <= k < |tasks| => tasks[k].chip);
    var first := FirstCarry(chips);
    Message(term, if first < |tasks| then tasks[first].prev else ZERO_OFFSET, commit, chips)
  }

  method BuildBinlogSyncResp(tasks: seq<Task>, commit: LogOffset, term: nat) returns (m: Message)
    ensures m == MessageFor(tasks, commit, term)
  {
    var prev, founded := ZERO_OFFSET, false;
    var chips: seq<Chip> := [];
    ghost var all := MessageFor(tasks, commit, term).chips;
    var i := 0;
    while i < |tasks|
      invariant 0 <= i <= |tasks| && |chips| == i
      invariant forall k | 0 <= k < i :: chips[k] == tasks[k].chip
      invariant founded <==> FirstCarry(all) < i
      invariant prev == if founded then tasks[FirstCarry(all)].prev else ZERO_OFFSET
    {
      assert all[i] == tasks[i].chip;
      if tasks[i].chip.Carry? && !founded {
        prev := tasks[i].prev;
        founded := true;
      }
      chips := chips + [tasks[i].chip];
      i := i + 1;
    }
    assert chips == all;
    m := Message(term, prev, commit, chips);
  }

  /** The message for tasks without gap or repetition is a segment of the log. */
  lemma BatchIsSegment(base: LogOffset, log: seq<Logged>, session: int, tasks: seq<Task>, i: nat, commit: LogOffset, term: nat)
    requires ShipsFrom(base, log, session, tasks, i)
    ensures Segment(base, log, MessageFor(tasks, commit, term), i)
    ensures Carries(MessageFor(tasks, commit, term).chips) == |tasks|
  {
    var m := MessageFor(tasks, commit, term);
    ChipsShip(base, log, session, tasks, i, m.chips);
    if |tasks| > 0 {
      assert m.chips[0].Carry?;
    }
  }

  lemma {:induction false} ChipsShip(base: LogOffset, log: seq<Logged>, session: int, tasks: seq<Task>, i: nat, chips: seq<Chip>)
    requires ShipsFrom(base, log, session, tasks, i)
    requires |chips| == |tasks| && forall k | 0 <= k < |tasks| :: chips[k] == tasks[k].chip
    ensures Ships(log, chips, i) && Carries(chips) == |tasks|
    decreases |tasks|
  {
    if tasks != [] {
      assert tasks[0] == TaskFor(base, log, session, i + 0);
      forall k | 0 <= k < |tasks[1..]|
        ensures tasks[1..][k] == TaskFor(base, log, session, i + 1 + k)
      {
        assert tasks[1 + k] == TaskFor(base, log, session, i + (1 + k));
      }
      ChipsShip(base, log, session, tasks[1..], i + 1, chips[1..]);
    }
  }

  /* ---------- which batches fit ---------- */

  /** Task `k` carries the entry after the offset before it, and, unless it is the first,
      the entry after the one before it. */
  predicate LinedAt(tasks: seq<Task>, k: int)
    requires 0 <= k < |tasks|
  {
    && tasks[k].chip.Carry? && tasks[k].chip.rec.index == tasks[k].prev.l.index + 1
    && (k > 0 ==> tasks[k - 1].chip.Carry? && tasks[k].chip.rec.index == tasks[k - 1].chip.rec.index + 1)
  }

  predicate Lined(tasks: seq<Task>) {
    forall k | 0 <= k < |tasks| :: LinedAt(tasks, k)
  }

  lemma LinedParts(tasks: seq<Task>, n: nat)
    requires Lined(tasks) && n <= |tasks|
    ensures Lined(tasks[..n]) && Lined(tasks[n..])
  {
    forall k | 0 <= k < n
      ensures LinedAt(tasks[..n], k)
    {
      assert LinedAt(tasks, k);
    }
    forall k | 0 <= k < |tasks| - n
      ensures LinedAt(tasks[n..], k)
    {
      assert LinedAt(tasks, n + k);
      assert k > 0 ==> tasks[n..][k - 1] == tasks[n + k - 1];
    }
  }

  /** A batch off a queue without jumps fits, whatever sessions its tasks are of. */
  lemma LinedFits(tasks: seq<Task>, commit: LogOffset, term: nat)
    requires Lined(tasks)
    ensures MessageFits(MessageFor(tasks, commit, term))
  {
    var m := MessageFor(tasks, commit, term);
    if tasks != [] {
      assert m.chips[0] == tasks[0].chip;
      assert LinedAt(tasks, 0);
      forall k | 0 <= k < |m.chips|
        ensures m.chips[k].Carry? && m.chips[k].rec.index == m.prev.l.index + 1 + k
      {
        LinedIndex(tasks, k);
      }
      ChipsFit(m.chips, m.chips[0].session, m.prev.l.index);
    }
  }

  lemma {:induction false} LinedIndex(tasks: seq<Task>, k: nat)
    requires Lined(tasks) && k < |tasks|
    ensures tasks[0].chip.Carry? && tasks[k].chip.Carry? && tasks[k].chip.rec.index == tasks[0].chip.rec.index + k
  {
    assert LinedAt(tasks, k);
    if k > 0 {
      LinedIndex(tasks, k - 1);
    }
  }

  lemma {:induction false} ChipsFit(chips: seq<Chip>, session: int, last: nat)
    requires forall k | 0 <= k < |chips| :: chips[k].Carry? && chips[k].rec.index == last + 1 + k
    ensures Fits(session, last, chips)
    decreases |chips|
  {
    if chips != [] {
      ChipsFit(chips[1..], session, last + 1);
    }
  }
}
