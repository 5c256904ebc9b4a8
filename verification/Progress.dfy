/**
 Entries do get committed. From every starting state, and for any followers that are up
 and at least as many as the consensus level asks for, there is a run in which a proposal
 reaches all of them, is acknowledged, is committed by the leader and then by them.
 */
module Progress {
  import opened BinlogHistory
  import opened Offsets
  import opened SyncWindow
  import opened CommitIndex
  import opened Options
  import opened ReplicatedLog
  import opened FollowerNode
  import opened Shipping
  import opened Cluster

  function Last(run: seq<State>): State
    requires run != []
  {
    run[|run| - 1]
  }

  /** One more step. */
  lemma Extend(cfg: Config, run: seq<State>, step: Step) returns (run': seq<State>)
    requires IsRun(cfg, run) && Enabled(cfg, Last(run), step)
    ensures IsRun(cfg, run') && run <= run' && Last(run') == Apply(cfg, Last(run), step)
  {
    run' := run + [Apply(cfg, Last(run), step)];
    assert Next(cfg, Last(run), Last(run'));
    forall i | 0 < i < |run'|
      ensures StepAt(cfg, run', i)
    {
      assert i < |run| ==> StepAt(cfg, run, i);
    }
  }

  /* ---------- one follower catches up ---------- */

  /** What is done for the followers `fs` leaves the others and the leader's own state alone. */
  ghost predicate OnlyFor(s: State, s': State, fs: set<Follower>) {
    && s'.log == s.log && s'.term == s.term && s'.committed == s.committed
    && s'.followers.Keys == s.followers.Keys
    && forall h | h !in fs :: Alike(s, s', h)
  }

  ghost predicate Alike(s: State, s': State, h: Follower) {
    && (h in s.followers ==> h in s'.followers && s'.followers[h] == s.followers[h])
    && (h in s'.sessions <==> h in s.sessions) && (h in s.sessions ==> s'.sessions[h] == s.sessions[h])
    && (h in s'.matches <==> h in s.matches) && (h in s.matches ==> s'.matches[h] == s.matches[h])
    && (h in s'.queues <==> h in s.queues)
  }

  lemma OnlyForOn(a: State, b: State, c: State, x: set<Follower>, y: set<Follower>)
    requires OnlyFor(a, b, x) && OnlyFor(b, c, y)
    ensures OnlyFor(a, c, x + y)
  {
    forall h | h !in x + y
      ensures Alike(a, c, h)
    {
      assert Alike(a, b, h) && Alike(b, c, h);
    }
  }

  /** A session that has read nothing since it was activated after `k` entries. */
  function Fresh(base: LogOffset, log: seq<Logged>, k: nat): Session
    requires k <= |log|
  {
    Session(0, true, k, OffsetBefore(base, log, k), OffsetBefore(base, log, k), [])
  }

  lemma Connects(cfg: Config, run: seq<State>, f: Follower) returns (run': seq<State>)
    requires IsRun(cfg, run)
    requires f in Last(run).followers && f !in Last(run).sessions && |Last(run).followers[f].log| <= |Last(run).log|
    ensures IsRun(cfg, run') && run <= run'
    ensures OnlyFor(Last(run), Last(run'), {f}) && Last(run').queues == Last(run).queues
    ensures f in Last(run').sessions && Last(run').sessions[f] == Fresh(cfg.base, Last(run).log, |Last(run).followers[f].log|)
    ensures Last(run').followers[f] == Last(run).followers[f].(state := Connected, session := 0)
  {
    var s := Last(run);
    var k := |s.followers[f].log|;
    var run1 := Extend(cfg, run, Reconnect(f, Connected, 0));
    var run2 := Extend(cfg, run1, AddSlaveNode(f, 0));
    assert Last(run2).sessions[f] == NewSession(0);
    run' := Extend(cfg, run2, Activate(f, k));
    assert Last(run').sessions == s.sessions[f := Fresh(cfg.base, s.log, k)];
  }

  /** The message that ships the log from entry `k` to its end. */
  function Shipment(cfg: Config, s: State, k: nat): Message
    requires k <= |s.log|
  {
    MessageFor(TasksFor(cfg.base, s.log, 0, k, |s.log| - k), s.committed, s.term)
  }

  /** Its session once everything has been read. */
  function Read(base: LogOffset, log: seq<Logged>, k: nat): Session
    requires k <= |log|
  {
    Session(0, true, |log|, LastOffset(base, log), OffsetBefore(base, log, k), WinItemsFor(log, k, |log| - k))
  }

  lemma ReadsAll(cfg: Config, run: seq<State>, f: Follower, k: nat, n: nat) returns (run': seq<State>)
    requires IsRun(cfg, run) && k + n == |Last(run).log|
    requires f in Last(run).sessions && Last(run).sessions[f] == Fresh(cfg.base, Last(run).log, k) && f !in Last(run).queues
    ensures IsRun(cfg, run') && run <= run'
    ensures OnlyFor(Last(run), Last(run'), {f}) && Last(run').followers == Last(run).followers
    ensures f in Last(run').sessions && Last(run').sessions[f] == Read(cfg.base, Last(run).log, k)
    ensures f in Last(run').queues && Last(run').queues[f] == TasksFor(cfg.base, Last(run).log, 0, k, n)
  {
    var log := Last(run).log;
    assert [] + WinItemsFor(log, k, n) == WinItemsFor(log, k, n);
    assert [] + TasksFor(cfg.base, log, 0, k, n) == TasksFor(cfg.base, log, 0, k, n);
    run' := Extend(cfg, run, ReadBinlog(f, n));
  }

  lemma SendsAll(cfg: Config, run: seq<State>, f: Follower, tasks: seq<Task>) returns (run': seq<State>)
    requires IsRun(cfg, run) && f in Last(run).queues && Last(run).queues[f] == tasks != []
    ensures IsRun(cfg, run') && run <= run'
    ensures OnlyFor(Last(run), Last(run'), {f}) && Last(run').followers == Last(run).followers && Last(run').sessions == Last(run).sessions
    ensures (f, MessageFor(tasks, Last(run).committed, Last(run).term)) in Last(run').net
  {
    assert tasks[..|tasks|] == tasks;
    run' := Extend(cfg, run, Send(f, |tasks|));
  }

  lemma Ships(cfg: Config, run: seq<State>, f: Follower, k: nat) returns (run': seq<State>)
    requires IsRun(cfg, run) && k < |Last(run).log|
    requires f in Last(run).sessions && Last(run).sessions[f] == Fresh(cfg.base, Last(run).log, k) && f !in Last(run).queues
    ensures IsRun(cfg, run') && run <= run'
    ensures OnlyFor(Last(run), Last(run'), {f}) && Last(run').followers == Last(run).followers
    ensures f in Last(run').sessions && Last(run').sessions[f] == Read(cfg.base, Last(run).log, k)
    ensures (f, Shipment(cfg, Last(run'), k)) in Last(run').net
  {
    var n := |Last(run).log| - k;
    var run1 := ReadsAll(cfg, run, f, k, n);
    run' := SendsAll(cfg, run1, f, TasksFor(cfg.base, Last(run).log, 0, k, n));
    OnlyForOn(Last(run), Last(run1), Last(run'), {f}, {f});
  }

  lemma ShipmentLive(cfg: Config, s: State, f: FollowerState)
    requires |f.log| <= |s.log| && f.state == Connected && f.session == 0
    ensures
      var m := Shipment(cfg, s, |f.log|);
      Live(f, m.chips) && Segment(cfg.base, s.log, m, |f.log|) && Carries(m.chips) == |s.log| - |f.log|
  {
    var k := |f.log|;
    var tasks := TasksFor(cfg.base, s.log, 0, k, |s.log| - k);
    assert ShipsFrom(cfg.base, s.log, 0, tasks, k);
    BatchIsSegment(cfg.base, s.log, 0, tasks, k, s.committed, s.term);
  }

  /** An acknowledgement of everything in the window empties it. */
  lemma WholeWindow(cfg: Config, log: seq<Logged>, t: Session, k: nat)
    requires WellPlaced(cfg.limit, cfg.base, log) && k < |log| && t.win == WinItemsFor(log, k, |log| - k)
    ensures
      var a, b := log[k].Offset(), log[|log| - 1].Offset();
      RangeFound(t.win, a, b) && AckSession(t, a, b).acked == b
  {
    var a, b := log[k].Offset(), log[|log| - 1].Offset();
    var n := |log| - k;
    forall i | 0 <= i < n
      ensures t.win[i].offset.Same(b) <==> i == n - 1
      ensures t.win[i].offset.Same(a) <==> i == 0
    {
      OffsetUnique(cfg.limit, cfg.base, log, k + i + 1, |log|);
      OffsetUnique(cfg.limit, cfg.base, log, k + i + 1, k + 1);
    }
    assert Spans(t.win, a, b, 0, n - 1);
    RangeNamed(t.win, a, b);
    var marked := Marked(t.win, 0, n - 1);
    assert forall i | 0 <= i < n :: marked[i].acked;
    assert AckedFront(marked) == n && marked[n - 1].offset == b;
    OffsetsIncrease(cfg.limit, cfg.base, log, 0, |log|);
  }

  /** The follower has it all, the leader knows, and they talk in one session. */
  ghost predicate CaughtUp(cfg: Config, s: State, f: Follower) {
    && f in s.followers && f in s.sessions && f in s.matches
    && s.followers[f].log == s.log && s.matches[f] == LastOffset(cfg.base, s.log)
    && Receiving(s.followers[f]) && s.followers[f].session == s.sessions[f].id && s.followers[f].term <= s.term
  }

  /** Nothing has been done for the follower yet, and it misses something. */
  ghost predicate Behind(s: State, f: Follower) {
    && f in s.followers && f !in s.sessions && f !in s.queues && f !in s.matches
    && s.followers[f].log < s.log && s.followers[f].term <= s.term
  }

  /** The follower takes in the shipment and acknowledges all of it. */
  lemma TakesAll(cfg: Config, s: State, f: Follower, k: nat) returns (g: FollowerState)
    requires WellPlaced(cfg.limit, cfg.base, s.log) && k < |s.log|
    requires f in s.followers && s.followers[f].log == s.log[..k] && s.followers[f].term <= s.term
    requires s.followers[f].state == Connected && s.followers[f].session == 0 && (f, Shipment(cfg, s, k)) in s.net
    ensures
      var m := Shipment(cfg, s, k);
      && Enabled(cfg, s, Receive(f, m, |m.chips|))
      && Apply(cfg, s, Receive(f, m, |m.chips|))
         == s.(followers := s.followers[f := g],
               acks := s.acks + {(f, 0, Ack(s.log[k].Offset(), s.log[|s.log| - 1].Offset()))})
    ensures g.log == s.log && g.term == s.term && g.state == Connected && g.session == 0
  {
    var m := Shipment(cfg, s, k);
    ShipmentLive(cfg, s, s.followers[f]);
    DeliverProgress(cfg.limit, cfg.base, s.log, s.followers[f], m);
    DeliverExactly(cfg.limit, cfg.base, s.followers[f], m);
    assert Garbled(m, |m.chips|) == m;
    assert s.log[..|s.log|] == s.log;
    g := Deliver(cfg.limit, cfg.base, s.followers[f], m).0;
  }

  /** The leader takes the acknowledgement. */
  lemma AcksAll(cfg: Config, s: State, f: Follower, k: nat, a: Ack) returns (t: Session)
    requires WellPlaced(cfg.limit, cfg.base, s.log) && k < |s.log|
    requires f in s.sessions && s.sessions[f] == Read(cfg.base, s.log, k)
    requires a == Ack(s.log[k].Offset(), s.log[|s.log| - 1].Offset()) && (f, 0, a) in s.acks
    ensures
      && Enabled(cfg, s, UpdateSlave(f, 0, a))
      && Apply(cfg, s, UpdateSlave(f, 0, a))
         == s.(sessions := s.sessions[f := t], matches := s.matches[f := LastOffset(cfg.base, s.log)])
    ensures t.id == 0
  {
    WholeWindow(cfg, s.log, s.sessions[f], k);
    OffsetsIncrease(cfg.limit, cfg.base, s.log, 0, |s.log|);
    assert !a.end.Same(ZERO_OFFSET);
    t := AckSession(s.sessions[f], a.start, a.end);
  }

  lemma Answers(cfg: Config, run: seq<State>, f: Follower, k: nat) returns (run': seq<State>)
    requires IsRun(cfg, run) && WellPlaced(cfg.limit, cfg.base, Last(run).log) && k < |Last(run).log|
    requires
      var s := Last(run);
      && f in s.followers && f in s.sessions && s.followers[f].log == s.log[..k] && s.followers[f].term <= s.term
      && s.followers[f].state == Connected && s.followers[f].session == 0
      && s.sessions[f] == Read(cfg.base, s.log, k) && (f, Shipment(cfg, s, k)) in s.net
    ensures IsRun(cfg, run') && run <= run'
    ensures CaughtUp(cfg, Last(run'), f) && OnlyFor(Last(run), Last(run'), {f})
  {
    var s := Last(run);
    var m := Shipment(cfg, s, k);
    var g := TakesAll(cfg, s, f, k);
    var run1 := Extend(cfg, run, Receive(f, m, |m.chips|));
    var a := Ack(s.log[k].Offset(), s.log[|s.log| - 1].Offset());
    var t := AcksAll(cfg, Last(run1), f, k, a);
    run' := Extend(cfg, run1, UpdateSlave(f, 0, a));
  }

  lemma CatchesUp(cfg: Config, run: seq<State>, f: Follower) returns (run': seq<State>)
    requires IsRun(cfg, run) && WellPlaced(cfg.limit, cfg.base, Last(run).log) && Behind(Last(run), f)
    ensures IsRun(cfg, run') && run <= run'
    ensures CaughtUp(cfg, Last(run'), f) && OnlyFor(Last(run), Last(run'), {f})
  {
    var k := |Last(run).followers[f].log|;
    var run1 := Connects(cfg, run, f);
    var run2 := Ships(cfg, run1, f, k);
    OnlyForOn(Last(run), Last(run1), Last(run2), {f}, {f});
    run' := Answers(cfg, run2, f, k);
    OnlyForOn(Last(run), Last(run2), Last(run'), {f}, {f});
  }

  /* ---------- all of them ---------- */

  lemma {:induction false} AllCatchUp(cfg: Config, run: seq<State>, ups: set<Follower>) returns (run': seq<State>)
    requires IsRun(cfg, run) && WellPlaced(cfg.limit, cfg.base, Last(run).log) && forall f | f in ups :: Behind(Last(run), f)
    ensures IsRun(cfg, run') && run <= run'
    ensures OnlyFor(Last(run), Last(run'), ups) && forall f | f in ups :: CaughtUp(cfg, Last(run'), f)
    decreases ups
  {
    if ups == {} {
      run' := run;
    } else {
      var f :| f in ups;
      var run1 := CatchesUp(cfg, run, f);
      forall h | h in ups - {f}
        ensures Behind(Last(run1), h)
      {
        assert Behind(Last(run), h) && Alike(Last(run), Last(run1), h);
      }
      run' := AllCatchUp(cfg, run1, ups - {f});
      OnlyForOn(Last(run), Last(run1), Last(run'), {f}, ups - {f});
      assert {f} + (ups - {f}) == ups;
      assert CaughtUp(cfg, Last(run1), f) && Alike(Last(run1), Last(run'), f);
    }
  }

  /** With one offset acknowledged by all, and they are enough, that is the commit index. */
  lemma Agreement(matches: map<Follower, LogOffset>, level: nat, c: LogOffset)
    requires 0 < level <= |matches| && forall f | f in matches :: matches[f] == c
    ensures IsCommitIndex(matches, level, c)
  {
    assert Holders(matches, c) == matches.Keys;
    var f :| f in matches;
    assert matches[f] in matches.Values;
    forall o: LogOffset | |Holders(matches, o)| >= level
      ensures o.AtMost(c)
    {
      var h :| h in Holders(matches, o);
    }
  }

  lemma LeaderCommits(cfg: Config, run: seq<State>, c: LogOffset) returns (run': seq<State>)
    requires IsRun(cfg, run) && IsCommitIndex(Last(run).matches, cfg.level, c)
    requires c.l.term == Last(run).term && !c.AtMost(Last(run).committed)
    ensures IsRun(cfg, run') && run <= run'
    ensures
      var s, s' := Last(run), Last(run');
      s' == s.(computed := s'.computed, checked := s'.checked, committed := c)
  {
    var run1 := Extend(cfg, run, Calculate(c));
    var run2 := Extend(cfg, run1, CheckTerm(c));
    run' := Extend(cfg, run2, Commit(c));
  }

  /** The leader's next ping takes the commit index to a follower that has the log. */
  lemma Learns(cfg: Config, run: seq<State>, f: Follower) returns (run': seq<State>)
    requires IsRun(cfg, run) && CaughtUp(cfg, Last(run), f) && Last(run).committed == LastOffset(cfg.base, Last(run).log)
    ensures IsRun(cfg, run') && run <= run'
    ensures OnlyFor(Last(run), Last(run'), {f})
    ensures Last(run').followers[f].log == Last(run).log && Last(run).committed.AtMost(Last(run').followers[f].committed)
  {
    var s := Last(run);
    var m := Message(s.term, ZERO_OFFSET, s.committed, [KeepAlive(s.sessions[f].id)]);
    var run1 := Extend(cfg, run, Ping(f));
    assert Garbled(m, 0) == m && Carries(m.chips[1..]) == 0;
    PingAnswered(cfg.limit, cfg.base, s.followers[f], m);
    DeliverExactly(cfg.limit, cfg.base, s.followers[f], m);
    ReceiveCommits(cfg, Last(run1), f, m, 0);
    run' := Extend(cfg, run1, Receive(f, m, 0));
  }

  /** The follower holds the whole log and has committed it. */
  ghost predicate Done(s: State, f: Follower) {
    f in s.followers && s.followers[f].log == s.log && s.committed.AtMost(s.followers[f].committed)
  }

  lemma {:induction false} AllLearn(cfg: Config, run: seq<State>, ups: set<Follower>) returns (run': seq<State>)
    requires IsRun(cfg, run) && Last(run).committed == LastOffset(cfg.base, Last(run).log)
    requires forall f | f in ups :: CaughtUp(cfg, Last(run), f)
    ensures IsRun(cfg, run') && run <= run'
    ensures OnlyFor(Last(run), Last(run'), ups) && forall f | f in ups :: Done(Last(run'), f)
    decreases ups
  {
    if ups == {} {
      run' := run;
    } else {
      var f :| f in ups;
      var run1 := Learns(cfg, run, f);
      forall h | h in ups - {f}
        ensures CaughtUp(cfg, Last(run1), h)
      {
        assert CaughtUp(cfg, Last(run), h) && Alike(Last(run), Last(run1), h);
      }
      run' := AllLearn(cfg, run1, ups - {f});
      OnlyForOn(Last(run), Last(run1), Last(run'), {f}, ups - {f});
      assert {f} + (ups - {f}) == ups;
      assert Done(Last(run1), f) && Alike(Last(run1), Last(run'), f);
    }
  }

  /** The leader proposes in a state in which nothing is connected. */
  lemma Proposes(cfg: Config, s: State, ups: set<Follower>, body: seq<BinlogBytes>) returns (run: seq<State>)
    requires Init(cfg, s) && ups <= s.followers.Keys && forall f | f in ups :: s.followers[f].term <= s.term
    ensures IsRun(cfg, run) && run[0] == s
    ensures
      var s' := Last(run);
      && s' == s.(log := Propose(cfg.limit, cfg.base, s.log, s.term, body))
      && WellPlaced(cfg.limit, cfg.base, s'.log) && forall f | f in ups :: Behind(s', f)
  {
    run := Extend(cfg, [s], ProposeLog(body));
    ProposeKeepsPlaces(cfg.limit, cfg.base, s.log, s.term, body);
  }

  /** A proposal can always be committed: whoever is up, if they are enough. */
  lemma ProposalCommits(cfg: Config, s: State, ups: set<Follower>, body: seq<BinlogBytes>) returns (run: seq<State>)
    requires Init(cfg, s) && ups <= s.followers.Keys && forall f | f in ups :: s.followers[f].term <= s.term
    requires 0 < cfg.level <= |ups|
    ensures IsRun(cfg, run) && run[0] == s
    ensures
      var s' := Last(run);
      && s'.log == Propose(cfg.limit, cfg.base, s.log, s.term, body)
      && s'.committed == LastOffset(cfg.base, s'.log)
      && forall f | f in ups :: Done(s', f)
  {
    var run1 := Proposes(cfg, s, ups, body);
    var run2 := AllCatchUp(cfg, run1, ups);
    var t := Last(run2);
    var c := LastOffset(cfg.base, t.log);
    AllMatch(cfg, Last(run1), t, ups);
    Agreement(t.matches, cfg.level, c);
    ProposedLast(cfg, s, body);
    var run3 := LeaderCommits(cfg, run2, c);
    forall f | f in ups
      ensures CaughtUp(cfg, Last(run3), f)
    {
      assert CaughtUp(cfg, t, f);
    }
    run := AllLearn(cfg, run3, ups);
  }

  lemma AllMatch(cfg: Config, s: State, t: State, ups: set<Follower>)
    requires s.matches == map[] && OnlyFor(s, t, ups) && forall f | f in ups :: CaughtUp(cfg, t, f)
    ensures t.matches.Keys == ups && |t.matches| == |ups|
    ensures forall f | f in t.matches :: t.matches[f] == LastOffset(cfg.base, t.log)
  {
    forall h
      ensures h in t.matches <==> h in ups
    {
      if h in ups {
        assert CaughtUp(cfg, t, h);
      } else {
        assert Alike(s, t, h);
      }
    }
    assert t.matches.Keys == ups;
    forall f | f in t.matches
      ensures t.matches[f] == LastOffset(cfg.base, t.log)
    {
      assert CaughtUp(cfg, t, f);
    }
  }

  lemma ProposedLast(cfg: Config, s: State, body: seq<BinlogBytes>)
    requires WellPlaced(cfg.limit, cfg.base, s.log) && s.committed.AtMost(cfg.base)
    ensures
      var c := LastOffset(cfg.base, Propose(cfg.limit, cfg.base, s.log, s.term, body));
      c.l.term == s.term && !c.AtMost(s.committed)
  {
    var log' := Propose(cfg.limit, cfg.base, s.log, s.term, body);
    ProposeKeepsPlaces(cfg.limit, cfg.base, s.log, s.term, body);
    OffsetsIncrease(cfg.limit, cfg.base, log', 0, |log'|);
  }
}
