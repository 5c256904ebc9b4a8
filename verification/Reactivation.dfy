/**
 Activating a follower again while tasks still wait for it. The tasks of the two
 activations share one queue, so a batch may hold a stretch of the log twice, and the
 follower then appends an entry twice. If no tasks wait at any activation, every
 message fits and all that holds of fitting messages holds of the run.
 */
module Reactivation {
  import opened BinlogHistory
  import opened Offsets
  import opened SyncWindow
  import opened ReplicatedLog
  import opened FollowerNode
  import opened Shipping
  import opened CommitIndex
  import opened Cluster

  /* ---------- no tasks wait at any activation ---------- */

  predicate Clear(s: State, step: Step) {
    step.Activate? ==> Queue(s, step.f) == []
  }

  ghost predicate ClearNext(cfg: Config, s: State, s': State) {
    exists step :: Enabled(cfg, s, step) && Clear(s, step) && s' == Apply(cfg, s, step)
  }

  ghost predicate ClearAt(cfg: Config, run: seq<State>, i: int)
    requires 0 < i < |run|
  {
    ClearNext(cfg, run[i - 1], run[i])
  }

  ghost predicate IsClearRun(cfg: Config, run: seq<State>) {
    && |run| > 0 && Init(cfg, run[0])
    && forall i | 0 < i < |run| :: ClearAt(cfg, run, i)
  }

  /** The queue has no jumps and ends where the session has read to. */
  predicate QueueLined(q: seq<Task>, active: bool, sent: LogOffset) {
    Lined(q) && (q != [] && active ==> q[|q| - 1].chip.Carry? && sent.l.index == q[|q| - 1].chip.rec.index)
  }

  predicate LinedFor(s: State, f: Follower) {
    if f in s.sessions then QueueLined(Queue(s, f), s.sessions[f].active, s.sessions[f].sent)
    else QueueLined(Queue(s, f), false, ZERO_OFFSET)
  }

  ghost predicate AllLined(s: State) {
    forall f: Follower :: LinedFor(s, f)
  }

  /** Tasks just read go on where the queue ends. */
  lemma ReadLined(cfg: Config, log: seq<Logged>, q: seq<Task>, id: int, i: nat, n: nat)
    requires WellPlaced(cfg.limit, cfg.base, log) && i + n <= |log|
    requires QueueLined(q, true, OffsetBefore(cfg.base, log, i))
    ensures QueueLined(q + TasksFor(cfg.base, log, id, i, n), true, OffsetBefore(cfg.base, log, i + n))
  {
    var tasks := TasksFor(cfg.base, log, id, i, n);
    var q' := q + tasks;
    OffsetsIncrease(cfg.limit, cfg.base, log, 0, i);
    OffsetsIncrease(cfg.limit, cfg.base, log, 0, i + n);
    forall k | 0 <= k < |q'|
      ensures LinedAt(q', k)
    {
      if k < |q| {
        assert LinedAt(q, k);
      } else {
        ReadTask(cfg, log, id, i + (k - |q|));
        assert q'[k] == TaskFor(cfg.base, log, id, i + (k - |q|));
        if k > |q| {
          ReadTask(cfg, log, id, i + (k - |q|) - 1);
          assert q'[k - 1] == TaskFor(cfg.base, log, id, i + (k - |q|) - 1);
        }
      }
    }
    if n > 0 {
      ReadTask(cfg, log, id, i + n - 1);
      assert q'[|q'| - 1] == TaskFor(cfg.base, log, id, i + (n - 1));
    } else {
      assert q' == q;
    }
  }

  lemma ReadTask(cfg: Config, log: seq<Logged>, id: int, i: nat)
    requires WellPlaced(cfg.limit, cfg.base, log) && i < |log|
    ensures TaskFor(cfg.base, log, id, i).chip.rec.index == cfg.base.l.index + i + 1
    ensures TaskFor(cfg.base, log, id, i).prev.l.index == cfg.base.l.index + i
  {
    assert Placed(cfg.limit, cfg.base, log, i);
    OffsetsIncrease(cfg.limit, cfg.base, log, 0, i);
  }

  /** A step on the queue and the session of one follower. */
  lemma OneLined(s: State, s': State, f: Follower)
    requires AllLined(s) && LinedFor(s', f)
    requires forall h | h != f :: Queue(s', h) == Queue(s, h)
    requires forall h | h != f :: (h in s'.sessions <==> h in s.sessions) && (h in s.sessions ==> s'.sessions[h] == s.sessions[h])
    ensures AllLined(s')
  {
    forall h: Follower
      ensures LinedFor(s', h)
    {
      assert LinedFor(s, h);
    }
  }

  lemma ReadLinedFor(cfg: Config, s: State, s': State, f: Follower, n: nat)
    requires WellPlaced(cfg.limit, cfg.base, s.log) && f in s.sessions && LinedFor(s, f)
    requires s.sessions[f].active && s.sessions[f].next + n <= |s.log| && SessionPlaced(cfg.base, s.log, s.sessions[f])
    requires f in s'.sessions && s'.sessions[f] == ReadInto(cfg.base, s.log, s.sessions[f], n)
    requires Queue(s', f) == Queue(s, f) + TasksFor(cfg.base, s.log, s.sessions[f].id, s.sessions[f].next, n)
    ensures LinedFor(s', f)
  {
    ReadLined(cfg, s.log, Queue(s, f), s.sessions[f].id, s.sessions[f].next, n);
  }

  lemma ReadKeepsLined(cfg: Config, s: State, f: Follower, n: nat)
    requires AllLined(s) && Enabled(cfg, s, ReadBinlog(f, n))
    requires WellPlaced(cfg.limit, cfg.base, s.log) && SessionPlaced(cfg.base, s.log, s.sessions[f])
    ensures AllLined(Apply(cfg, s, ReadBinlog(f, n)))
  {
    var s' := Apply(cfg, s, ReadBinlog(f, n));
    assert LinedFor(s, f);
    ReadLinedFor(cfg, s, s', f, n);
    OneLined(s, s', f);
  }

  lemma SendKeepsLined(cfg: Config, s: State, f: Follower, n: nat)
    requires AllLined(s) && Enabled(cfg, s, Send(f, n))
    ensures AllLined(Apply(cfg, s, Send(f, n)))
    ensures MessageFits(MessageFor(Queue(s, f)[..n], s.committed, s.term))
  {
    var q := Queue(s, f);
    assert LinedFor(s, f);
    LinedParts(q, n);
    LinedFits(q[..n], s.committed, s.term);
    OneLined(s, Apply(cfg, s, Send(f, n)), f);
  }

  /** Steps that add no task, and activate no follower for which tasks wait. */
  lemma OthersKeepLined(s: State, s': State)
    requires AllLined(s)
    requires forall f: Follower :: Queue(s', f) == Queue(s, f) || Queue(s', f) == []
    requires forall f | f in s'.sessions && s'.sessions[f].active && Queue(s', f) != [] ::
               f in s.sessions && s.sessions[f].active && s'.sessions[f].sent == s.sessions[f].sent
    ensures AllLined(s')
  {
    forall f: Follower
      ensures LinedFor(s', f)
    {
      assert LinedFor(s, f);
    }
  }

  /** Steps on sessions alone. */
  lemma MembersKeepLined(cfg: Config, s: State, step: Step)
    requires AllLined(s) && Enabled(cfg, s, step) && Clear(s, step)
    requires step.AddSlaveNode? || step.Activate? || step.RemoveSlaveNode? || step.UpdateSlave? || step.DropQueue?
    ensures AllLined(Apply(cfg, s, step))
  {
    OthersKeepLined(s, Apply(cfg, s, step));
  }

  /** Steps that leave queues and sessions alone. */
  lemma RestKeepsLined(cfg: Config, s: State, step: Step)
    requires AllLined(s) && Enabled(cfg, s, step)
    requires !(step.AddSlaveNode? || step.Activate? || step.RemoveSlaveNode? || step.UpdateSlave? || step.DropQueue?)
    requires !step.ReadBinlog? && !step.Send?
    ensures AllLined(Apply(cfg, s, step))
  {
    var s' := Apply(cfg, s, step);
    assert s'.sessions == s.sessions && s'.queues == s.queues;
    OthersKeepLined(s, s');
  }

  lemma ClearStepLined(cfg: Config, s: State, step: Step)
    requires Inv(cfg, s) && AllLined(s) && Enabled(cfg, s, step) && Clear(s, step)
    ensures AllLined(Apply(cfg, s, step))
  {
    if step.ReadBinlog? {
      assert SessionOk(cfg, s, step.f);
      ReadKeepsLined(cfg, s, step.f, step.n);
    } else if step.Send? {
      SendKeepsLined(cfg, s, step.f, step.n);
    } else if step.AddSlaveNode? || step.Activate? || step.RemoveSlaveNode? || step.UpdateSlave? || step.DropQueue? {
      MembersKeepLined(cfg, s, step);
    } else {
      RestKeepsLined(cfg, s, step);
    }
  }

  lemma PingFits(m: Message)
    requires |m.chips| == 1 && m.chips[0].KeepAlive?
    ensures MessageFits(m)
  {
  }

  lemma ClearStepFits(cfg: Config, s: State, step: Step)
    requires NetFits(s) && AllLined(s) && Enabled(cfg, s, step)
    ensures NetFits(Apply(cfg, s, step))
  {
    match step
    case Send(f, n) => SendKeepsLined(cfg, s, f, n);
    case Ping(f) =>
      PingFits(Message(s.term, ZERO_OFFSET, s.committed, [KeepAlive(s.sessions[f].id)]));
    case _ => assert Apply(cfg, s, step).net == s.net;
  }

  lemma {:induction false} ClearRunInv(cfg: Config, run: seq<State>, j: nat)
    requires IsClearRun(cfg, run) && j < |run|
    ensures Inv(cfg, run[j]) && AllLined(run[j]) && NetFits(run[j])
  {
    if j == 0 {
      InitInv(cfg, run[0]);
    } else {
      ClearRunInv(cfg, run, j - 1);
      assert ClearAt(cfg, run, j);
      ClearRunStep(cfg, run[j - 1], run[j]);
    }
  }

  lemma ClearRunStep(cfg: Config, s: State, s': State)
    requires Inv(cfg, s) && AllLined(s) && NetFits(s) && ClearNext(cfg, s, s')
    ensures Inv(cfg, s') && AllLined(s') && NetFits(s')
  {
    var step :| Enabled(cfg, s, step) && Clear(s, step) && s' == Apply(cfg, s, step);
    ClearStepLined(cfg, s, step);
    ClearStepFits(cfg, s, step);
    SentFits(cfg, s, step);
    StepKeepsInv(cfg, s, step);
  }

  /** When no follower is activated while tasks wait for it, every message fits: such
      runs are among those in which replication and commits are safe. */
  lemma ClearRunFits(cfg: Config, run: seq<State>, j: nat)
    requires IsClearRun(cfg, run) && j < |run|
    ensures IsRun(cfg, run) && NetFits(run[j])
  {
    ClearRunInv(cfg, run, j);
    forall i | 0 < i < |run|
      ensures StepAt(cfg, run, i)
    {
      assert ClearAt(cfg, run, i);
      ClearIsNext(cfg, run[i - 1], run[i]);
    }
  }

  /** So in such runs followers hold prefixes of the leader's log, and what is committed
      is held by enough of them, however often followers are activated. */
  lemma ClearRunSafe(cfg: Config, run: seq<State>, i: nat, j: nat, f: Follower)
    requires IsClearRun(cfg, run) && i <= j < |run| && f in run[i].followers
    ensures f in run[j].followers && run[i].followers[f].log <= run[j].followers[f].log <= run[j].log
    ensures run[i].committed.AtMost(run[j].committed) && Replicated(cfg, run[j], run[j].committed)
  {
    ClearRunFits(cfg, run, j);
    AllSentFit(cfg, run, j);
    ReplicationSafe(cfg, run, i, j, f);
    CommitSafe(cfg, run, i, j);
  }

  lemma ClearIsNext(cfg: Config, s: State, s': State)
    requires ClearNext(cfg, s, s')
    ensures Next(cfg, s, s')
  {
    var step :| Enabled(cfg, s, step) && Clear(s, step) && s' == Apply(cfg, s, step);
  }

  /* ---------- tasks wait at an activation ---------- */

  /** The state after a step, which can be taken. */
  ghost predicate Takes(cfg: Config, s: State, step: Step, s': State) {
    Enabled(cfg, s, step) && s' == Apply(cfg, s, step)
  }

  /** Activates the follower at the end of its log and reads one entry. */
  lemma ActivateAndRead(cfg: Config, s: State, f: Follower) returns (s1: State, s2: State)
    requires f in s.followers && f in s.sessions && |s.followers[f].log| < |s.log|
    ensures Next(cfg, s, s1) && Next(cfg, s1, s2)
    ensures s2.followers == s.followers && s2.log == s.log && s2.term == s.term && s2.committed == s.committed
    ensures f in s2.sessions && s2.sessions[f].id == s.sessions[f].id
    ensures Queue(s2, f) == Queue(s, f) + [TaskFor(cfg.base, s.log, s.sessions[f].id, |s.followers[f].log|)]
  {
    var k := |s.followers[f].log|;
    s1 := Apply(cfg, s, Activate(f, k));
    assert Takes(cfg, s, Activate(f, k), s1);
    assert Enabled(cfg, s1, ReadBinlog(f, 1));
    s2 := Apply(cfg, s1, ReadBinlog(f, 1));
    assert Takes(cfg, s1, ReadBinlog(f, 1), s2);
    assert TasksFor(cfg.base, s.log, s.sessions[f].id, k, 1) == [TaskFor(cfg.base, s.log, s.sessions[f].id, k)];
  }

  /** Sends two tasks and delivers them. */
  lemma SendTwo(cfg: Config, s: State, f: Follower) returns (s1: State, s2: State)
    requires f in s.followers && |Queue(s, f)| == 2
    ensures Next(cfg, s, s1) && Next(cfg, s1, s2)
    ensures s2.log == s.log && f in s2.followers
    ensures s2.followers[f] == Deliver(cfg.limit, cfg.base, s.followers[f], MessageFor(Queue(s, f), s.committed, s.term)).0
  {
    var q := Queue(s, f);
    assert q[..2] == q;
    var m := MessageFor(q, s.committed, s.term);
    s1 := Apply(cfg, s, Send(f, 2));
    assert Takes(cfg, s, Send(f, 2), s1);
    assert Enabled(cfg, s1, Receive(f, m, |m.chips|));
    s2 := Apply(cfg, s1, Receive(f, m, |m.chips|));
    assert Takes(cfg, s1, Receive(f, m, |m.chips|), s2);
  }

  /** A message with the next entry twice: the follower ends with it twice. */
  lemma TwiceBreaks(cfg: Config, s: State, f: Follower, t: Task, m: Message)
    requires WellPlaced(cfg.limit, cfg.base, s.log) && f in s.followers
    requires
      var g := s.followers[f];
      && g.log < s.log && LastOffset(cfg.base, g.log).l.index != 0 && Receiving(g)
      && t == TaskFor(cfg.base, s.log, g.session, |g.log|) && g.term <= m.term
    requires m == MessageFor([t, t], s.committed, m.term)
    ensures !(Deliver(cfg.limit, cfg.base, s.followers[f], m).0.log <= s.log)
  {
    var g := s.followers[f];
    assert m.chips == [t.chip, t.chip] && m.prev == t.prev;
    ReadTask(cfg, s.log, g.session, |g.log|);
    assert m.chips[1..] == [t.chip];
    assert !Fits(g.session, t.chip.rec.index, [t.chip]);
    FittingIsSafe(cfg.limit, cfg.base, s.log, g, m);
  }

  lemma OnRun(cfg: Config, run: seq<State>, s: State, s': State) returns (run': seq<State>)
    requires IsRun(cfg, run) && run[|run| - 1] == s && Next(cfg, s, s')
    ensures IsRun(cfg, run') && run'[0] == run[0] && run'[|run'| - 1] == s'
  {
    run' := run + [s'];
    forall i | 0 < i < |run'|
      ensures StepAt(cfg, run', i)
    {
      if i < |run| {
        assert StepAt(cfg, run, i);
      }
    }
  }

  lemma JoinAndActivateTwice(cfg: Config, s: State, f: Follower) returns (run: seq<State>, s': State)
    requires Init(cfg, s) && f in s.followers && |s.followers[f].log| < |s.log|
    ensures IsRun(cfg, run) && run[0] == s && run[|run| - 1] == s'
    ensures s'.followers == s.followers && s'.log == s.log && s'.term == s.term && s'.committed == s.committed
    ensures
      var t := TaskFor(cfg.base, s.log, s.followers[f].session, |s.followers[f].log|);
      Queue(s', f) == [t, t]
  {
    var id := s.followers[f].session;
    var joined := Apply(cfg, s, AddSlaveNode(f, id));
    assert Takes(cfg, s, AddSlaveNode(f, id), joined);
    var a1, a2 := ActivateAndRead(cfg, joined, f);
    var b1, b2 := ActivateAndRead(cfg, a2, f);
    s' := b2;
    run := OnRun(cfg, [s], s, joined);
    run := OnRun(cfg, run, joined, a1);
    run := OnRun(cfg, run, a1, a2);
    run := OnRun(cfg, run, a2, b1);
    run := OnRun(cfg, run, b1, b2);
  }

  /** From every initial state in which a connected follower is behind the leader there is
      a run that activates it, reads an entry, activates it again before the entry is sent
      and reads it again: the follower's log is then no prefix of the leader's. */
  lemma SecondActivationRepeats(cfg: Config, s: State, f: Follower) returns (run: seq<State>)
    requires Init(cfg, s) && f in s.followers && |s.followers[f].log| < |s.log|
    requires Receiving(s.followers[f]) && s.followers[f].term <= s.term
    ensures IsRun(cfg, run) && run[0] == s
    ensures
      var end := run[|run| - 1];
      f in end.followers && !(end.followers[f].log <= end.log)
  {
    var g := s.followers[f];
    var s1;
    run, s1 := JoinAndActivateTwice(cfg, s, f);
    var t := TaskFor(cfg.base, s.log, g.session, |g.log|);
    var s2, s3 := SendTwo(cfg, s1, f);
    TwiceBreaks(cfg, s, f, t, MessageFor([t, t], s.committed, s.term));
    run := OnRun(cfg, run, s1, s2);
    run := OnRun(cfg, run, s2, s3);
  }

  /** There are such states: a leader with one entry and a connected follower with none. */
  lemma SomeFollowerBehind() returns (cfg: Config, s: State, f: Follower)
    ensures Init(cfg, s) && f in s.followers && |s.followers[f].log| < |s.log|
    ensures Receiving(s.followers[f]) && s.followers[f].term <= s.term
  {
    var base := LogOffset(Position(0, 0), LogicOffset(1, 1));
    f, cfg := "follower", Config(100, base, 1);
    var log := Propose(cfg.limit, base, [], 1, []);
    ProposeKeepsPlaces(cfg.limit, base, [], 1, []);
    s := State(1, log, map[f := FollowerState([], 1, base, Connected, 1)], map[], map[], map[], {}, {}, {}, {}, base);
  }

  /** So not every run is safe, and one that is not has sent a message that does not fit. */
  lemma UnsafeRunExists() returns (cfg: Config, run: seq<State>, f: Follower)
    ensures IsRun(cfg, run) && f in run[|run| - 1].followers
    ensures !(run[|run| - 1].followers[f].log <= run[|run| - 1].log) && !NetFits(run[|run| - 1])
  {
    var s;
    cfg, s, f := SomeFollowerBehind();
    run := SecondActivationRepeats(cfg, s, f);
    var last := |run| - 1;
    if NetFits(run[last]) {
      AllSentFit(cfg, run, last);
      ReplicationSafe(cfg, run, last, last, f);
      assert false;
    }
  }
}
