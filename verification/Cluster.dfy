/**
 A leader, its followers and the network between them as one state machine. A step
 is one critical section of the code: messages may be lost, delayed, repeated and
 reordered; acknowledgements, commit computations and term changes interleave freely.

 A follower may be activated again at any time. The tasks waiting for it and the window
 of its session outlive that, and the tasks outlive the session too.
 */
module Cluster {
  import opened BinlogHistory
  import opened Offsets
  import opened SyncWindow
  import opened CommitIndex
  import opened Options
  import opened ReplicatedLog
  import opened FollowerNode
  import opened Shipping

  /** `base` is the offset both logs start from, `level` the consensus level. */
  datatype Config = Config(limit: nat, base: LogOffset, level: nat)

  datatype State = State(
    term: nat,
    log: seq<Logged>,
    followers: map<Follower, FollowerState>,
    sessions: map<Follower, Session>,
    queues: map<Follower, seq<Task>>,
    matches: map<Follower, LogOffset>,
    net: set<(Follower, Message)>,
    acks: set<(Follower, int, Ack)>,
    computed: set<LogOffset>,  // commit indices computed, term not yet checked
    checked: set<LogOffset>,   // term checked, not yet compared with the commit index
    committed: LogOffset)

  datatype Step =
    | ProposeLog(body: seq<BinlogBytes>)
    | UpdateTerm(term: nat)
    | AddSlaveNode(f: Follower, id: int)
    | Activate(f: Follower, k: nat)
    | RemoveSlaveNode(f: Follower)
    | ReadBinlog(f: Follower, n: nat)
    | Send(f: Follower, n: nat)
    | DropQueue(f: Follower)
    | Ping(f: Follower)
    | Receive(f: Follower, m: Message, bad: nat)
    | Reconnect(f: Follower, state: ReplState, id: int)
    | UpdateSlave(f: Follower, id: int, a: Ack)
    | Calculate(c: LogOffset)
    | CheckTerm(c: LogOffset)
    | Commit(c: LogOffset)

  type BinlogBytes = BinlogFormat.byte
  import BinlogFormat

  /** The tasks waiting to be sent to `f`. */
  function Queue(s: State, f: Follower): seq<Task> {
    if f in s.queues then s.queues[f] else []
  }

  ghost predicate Enabled(cfg: Config, s: State, step: Step) {
    match step
    case ProposeLog(_) => true
    case UpdateTerm(_) => true
    case AddSlaveNode(f, _) => f in s.followers
    case Activate(f, k) => f in s.sessions && f in s.followers && k <= |s.followers[f].log| && k <= |s.log|
    case RemoveSlaveNode(f) => true
    case ReadBinlog(f, n) => f in s.sessions && s.sessions[f].active && s.sessions[f].next + n <= |s.log|
    case Send(f, n) => 0 < n <= |Queue(s, f)|
    case DropQueue(f) => true
    case Ping(f) => f in s.sessions
    case Receive(f, m, _) => (f, m) in s.net && f in s.followers
    case Reconnect(f, _, _) => f in s.followers
    case UpdateSlave(f, id, a) =>
      && (f, id, a) in s.acks && f in s.sessions && s.sessions[f].id == id && s.sessions[f].active
      && !(a.start.Same(ZERO_OFFSET) && a.end.Same(ZERO_OFFSET))
      && RangeFound(s.sessions[f].win, a.start, a.end)
    case Calculate(c) => IsCommitIndex(s.matches, cfg.level, c)
    case CheckTerm(c) => c in s.computed
    case Commit(c) => c in s.checked
  }

  function Apply(cfg: Config, s: State, step: Step): State
    requires Enabled(cfg, s, step)
  {
    match step
    case ProposeLog(body) => s.(log := Propose(cfg.limit, cfg.base, s.log, s.term, body))
    case UpdateTerm(term) => s.(term := term)
    case AddSlaveNode(f, id) =>
      if f in s.sessions then s.(sessions := s.sessions[f := s.sessions[f].(id := id)])
      else s.(sessions := s.sessions[f := NewSession(id)], matches := s.matches[f := ZERO_OFFSET])
    case Activate(f, k) => s.(sessions := s.sessions[f := Activated(cfg.base, s.log, s.sessions[f], k)])
    case RemoveSlaveNode(f) => s.(sessions := s.sessions - {f}, matches := s.matches - {f})
    case ReadBinlog(f, n) =>
      var t := s.sessions[f];
      s.(sessions := s.sessions[f := ReadInto(cfg.base, s.log, t, n)],
         queues := s.queues[f := Queue(s, f) + TasksFor(cfg.base, s.log, t.id, t.next, n)])
    case Send(f, n) =>
      var q := Queue(s, f);
      s.(queues := s.queues[f := q[n..]],
         net := s.net + {(f, MessageFor(q[..n], s.committed, s.term))})
    case DropQueue(f) => s.(queues := s.queues - {f})
    case Ping(f) => s.(net := s.net + {(f, Message(s.term, ZERO_OFFSET, s.committed, [KeepAlive(s.sessions[f].id)]))})
    case Receive(f, m, bad) =>
      var (g, ack) := Deliver(cfg.limit, cfg.base, s.followers[f], Garbled(m, bad));
      s.(followers := s.followers[f := g],
         acks := s.acks + if ack.Some? then {(f, g.session, ack.value)} else {})
    case Reconnect(f, state, id) => s.(followers := s.followers[f := s.followers[f].(state := state, session := id)])
    case UpdateSlave(f, id, a) =>
      var t := AckSession(s.sessions[f], a.start, a.end);
      s.(sessions := s.sessions[f := t], matches := s.matches[f := t.acked])
    case Calculate(c) => s.(computed := s.computed + {c})
    case CheckTerm(c) =>
      s.(computed := s.computed - {c}, checked := if c.l.term == s.term then s.checked + {c} else s.checked)
    case Commit(c) =>
      s.(checked := s.checked - {c}, committed := if c.AtMost(s.committed) then s.committed else c)
  }

  ghost predicate Next(cfg: Config, s: State, s': State) {
    exists step :: Enabled(cfg, s, step) && s' == Apply(cfg, s, step)
  }

  /** Nothing is connected yet; followers hold prefixes of the leader's log and have a
      non-zero last index; nothing beyond the common base is committed. */
  ghost predicate Init(cfg: Config, s: State) {
    && WellPlaced(cfg.limit, cfg.base, s.log)
    && (forall f | f in s.followers ::
          && s.followers[f].log <= s.log && LastOffset(cfg.base, s.followers[f].log).l.index != 0
          && s.followers[f].committed.AtMost(s.committed))
    && s.sessions == map[] && s.queues == map[] && s.matches == map[] && s.net == {} && s.acks == {}
    && s.computed == {} && s.checked == {}
    && s.committed.AtMost(cfg.base)
  }

  /* ---------- what every step keeps ---------- */

  /** `o` is the offset after at most `len` entries of the log. */
  ghost predicate Within(base: LogOffset, log: seq<Logged>, len: nat, o: LogOffset) {
    exists n :: 0 <= n <= len && n <= |log| && o == OffsetBefore(base, log, n)
  }

  /** Followers that hold the first `n` entries. */
  function Replicas(s: State, n: nat): set<Follower> {
    set f | f in s.followers && |s.followers[f].log| >= n
  }

  /** `o` is not past the common base, or it ends a prefix of the leader's log that at
      least `level` followers hold. */
  ghost predicate Replicated(cfg: Config, s: State, o: LogOffset) {
    || o.AtMost(cfg.base)
    || exists n :: 0 <= n <= |s.log| && o == OffsetBefore(cfg.base, s.log, n) && |Replicas(s, n)| >= cfg.level
  }

  /** The follower's log is a prefix of the leader's, and its commit index is within
      its own log and not past the leader's. */
  ghost predicate FollowerOk(cfg: Config, s: State, f: Follower)
    requires f in s.followers
  {
    var g := s.followers[f];
    && g.log <= s.log && LastOffset(cfg.base, g.log).l.index != 0
    && g.committed.AtMost(s.committed)
    && (g.committed.AtMost(cfg.base) || Within(cfg.base, s.log, |g.log|, g.committed))
  }

  ghost predicate MessageOk(cfg: Config, s: State, m: Message) {
    && FromLog(cfg.base, s.log, m.chips)
    && m.commit.AtMost(s.committed)
    && (m.commit.AtMost(cfg.base) || Within(cfg.base, s.log, |s.log|, m.commit))
  }

  /** An acknowledgement ends where the follower's log has been. */
  ghost predicate AckOk(cfg: Config, s: State, f: Follower, a: Ack)
    requires f in s.followers
  {
    || (a.start.Same(ZERO_OFFSET) && a.end.Same(ZERO_OFFSET))
    || exists n :: 0 <= n <= |s.followers[f].log| && n <= |s.log| && a.end.Same(OffsetBefore(cfg.base, s.log, n))
  }

  /** The offsets after at most `len` entries of the log. */
  ghost function Ends(base: LogOffset, log: seq<Logged>, len: nat): iset<LogOffset> {
    iset o | Within(base, log, len, o)
  }

  /** Items of the window are entries of the log, in any order and as often as they were
      read. From a marked item on, the marks run to an item the follower holds. */
  ghost predicate WindowOk(base: LogOffset, log: seq<Logged>, win: seq<WinItem>, len: nat) {
    ItemsIn(win, Ends(base, log, |log|)) && MarksHeld(win, Ends(base, log, len))
  }

  ghost predicate SessionOk(cfg: Config, s: State, f: Follower)
    requires f in s.followers && f in s.sessions
  {
    var t, len := s.sessions[f], |s.followers[f].log|;
    && SessionPlaced(cfg.base, s.log, t)
    && WindowOk(cfg.base, s.log, t.win, len)
    && (t.active ==> Within(cfg.base, s.log, len, t.acked))
  }

  /** Waiting tasks carry entries of the log. */
  ghost predicate QueueOk(cfg: Config, log: seq<Logged>, q: seq<Task>) {
    forall k | 0 <= k < |q| :: q[k].chip.Carry? && Names(cfg.base, log, q[k].chip)
  }

  ghost predicate MatchOk(cfg: Config, s: State, f: Follower)
    requires f in s.followers && f in s.matches
  {
    s.matches[f] == ZERO_OFFSET || Within(cfg.base, s.log, |s.followers[f].log|, s.matches[f])
  }

  ghost predicate Inv(cfg: Config, s: State) {
    && WellPlaced(cfg.limit, cfg.base, s.log)
    && (forall f | f in s.followers :: FollowerOk(cfg, s, f))
    && (forall f | f in s.sessions :: f in s.followers && SessionOk(cfg, s, f))
    && (forall f | f in s.queues :: f in s.followers && QueueOk(cfg, s.log, s.queues[f]))
    && (forall f | f in s.matches :: f in s.followers && MatchOk(cfg, s, f))
    && (forall p | p in s.net :: p.0 in s.followers && MessageOk(cfg, s, p.1))
    && (forall p | p in s.acks :: p.0 in s.followers && AckOk(cfg, s, p.0, p.2))
    && (forall c | c in s.computed :: Replicated(cfg, s, c))
    && (forall c | c in s.checked :: Replicated(cfg, s, c))
    && Replicated(cfg, s, s.committed)
  }

  /** Logs only grow. */
  ghost predicate Grows(s: State, s': State) {
    && s.log <= s'.log
    && s.followers.Keys == s'.followers.Keys
    && (forall f | f in s.followers :: s.followers[f].log <= s'.followers[f].log)
    && s.committed.AtMost(s'.committed)
  }

  /** Every message sent so far fits. */
  ghost predicate NetFits(s: State) {
    forall p | p in s.net :: MessageFits(p.1)
  }

  /** If the step has a follower take in a message, the records it reads fit. */
  ghost predicate TakenFits(cfg: Config, s: State, step: Step) {
    step.Receive? && step.f in s.followers && Accepts(cfg.base, s.followers[step.f], step.m) ==>
      Fits(s.followers[step.f].session, step.m.prev.l.index, Garbled(step.m, step.bad).chips)
  }

  /** When all that was sent fits, all that is taken in does. */
  lemma SentFits(cfg: Config, s: State, step: Step)
    requires Enabled(cfg, s, step) && NetFits(s)
    ensures TakenFits(cfg, s, step)
  {
    if step.Receive? && Accepts(cfg.base, s.followers[step.f], step.m) {
      var m, session := step.m, s.followers[step.f].session;
      assert MessageFits((step.f, m).1);
      if m.chips != [] && m.chips[0].session == session {
        GarbledFits(session, m.prev.l.index, m.chips, Garbled(m, step.bad).chips);
      }
    }
  }

  lemma WithinGrows(base: LogOffset, log: seq<Logged>, log': seq<Logged>, len: nat, len': nat, o: LogOffset)
    requires Within(base, log, len, o) && log <= log' && len <= len'
    ensures Within(base, log', len', o)
  {
    var n :| 0 <= n <= len && n <= |log| && o == OffsetBefore(base, log, n);
    assert o == OffsetBefore(base, log', n);
  }

  lemma ReplicatedGrows(cfg: Config, s: State, s': State, o: LogOffset)
    requires Replicated(cfg, s, o) && Grows(s, s')
    ensures Replicated(cfg, s', o)
  {
    if !o.AtMost(cfg.base) {
      var n :| 0 <= n <= |s.log| && o == OffsetBefore(cfg.base, s.log, n) && |Replicas(s, n)| >= cfg.level;
      assert o == OffsetBefore(cfg.base, s'.log, n);
      assert Replicas(s, n) <= Replicas(s', n);
      SubsetSize(Replicas(s, n), Replicas(s', n));
    }
  }

  lemma {:induction false} SubsetSize(a: set<Follower>, b: set<Follower>)
    requires a <= b
    ensures |a| <= |b|
  {
    if a != {} {
      var x :| x in a;
      SubsetSize(a - {x}, b - {x});
    }
  }

  lemma MessageGrows(cfg: Config, s: State, s': State, m: Message)
    requires MessageOk(cfg, s, m) && Grows(s, s')
    ensures MessageOk(cfg, s', m)
  {
    forall k | 0 <= k < |m.chips| && m.chips[k].Carry?
      ensures Names(cfg.base, s'.log, m.chips[k])
    {
      assert Names(cfg.base, s.log, m.chips[k]);
    }
    if !m.commit.AtMost(cfg.base) {
      WithinGrows(cfg.base, s.log, s'.log, |s.log|, |s'.log|, m.commit);
    }
  }

  lemma AckGrows(cfg: Config, s: State, s': State, f: Follower, a: Ack)
    requires f in s.followers && AckOk(cfg, s, f, a) && Grows(s, s')
    ensures AckOk(cfg, s', f, a)
  {
    if !(a.start.Same(ZERO_OFFSET) && a.end.Same(ZERO_OFFSET)) {
      var n :| 0 <= n <= |s.followers[f].log| && n <= |s.log| && a.end.Same(OffsetBefore(cfg.base, s.log, n));
      assert OffsetBefore(cfg.base, s'.log, n) == OffsetBefore(cfg.base, s.log, n);
    }
  }

  lemma EndsGrow(base: LogOffset, log: seq<Logged>, log': seq<Logged>, len: nat, len': nat)
    requires log <= log' && len <= len'
    ensures Ends(base, log, len) <= Ends(base, log', len')
  {
    forall o | o in Ends(base, log, len)
      ensures o in Ends(base, log', len')
    {
      WithinGrows(base, log, log', len, len', o);
    }
  }

  lemma WindowGrows(base: LogOffset, log: seq<Logged>, log': seq<Logged>, win: seq<WinItem>, len: nat, len': nat)
    requires WindowOk(base, log, win, len) && log <= log' && len <= len'
    ensures WindowOk(base, log', win, len')
  {
    EndsGrow(base, log, log', |log|, |log'|);
    EndsGrow(base, log, log', len, len');
    MarksGrow(win, Ends(base, log, len), Ends(base, log', len'));
  }

  lemma SessionGrows(cfg: Config, s: State, s': State, f: Follower)
    requires f in s.followers && f in s.sessions && SessionOk(cfg, s, f) && Grows(s, s')
    requires f in s'.sessions && s'.sessions[f] == s.sessions[f]
    ensures SessionOk(cfg, s', f)
  {
    var t := s.sessions[f];
    WindowGrows(cfg.base, s.log, s'.log, t.win, |s.followers[f].log|, |s'.followers[f].log|);
    if t.active {
      WithinGrows(cfg.base, s.log, s'.log, |s.followers[f].log|, |s'.followers[f].log|, t.acked);
    }
  }

  lemma QueueGrows(cfg: Config, log: seq<Logged>, log': seq<Logged>, q: seq<Task>)
    requires QueueOk(cfg, log, q) && log <= log'
    ensures QueueOk(cfg, log', q)
  {
  }

  lemma FollowerGrows(cfg: Config, s: State, s': State, f: Follower)
    requires f in s.followers && FollowerOk(cfg, s, f) && Grows(s, s')
    requires s'.followers[f].log == s.followers[f].log && s'.followers[f].committed == s.followers[f].committed
    ensures FollowerOk(cfg, s', f)
  {
    var g := s.followers[f];
    if !g.committed.AtMost(cfg.base) {
      WithinGrows(cfg.base, s.log, s'.log, |g.log|, |g.log|, g.committed);
    }
  }

  /** A step keeps the invariant if what it adds is all right in the new state. */
  lemma InvCarries(cfg: Config, s: State, s': State)
    requires Inv(cfg, s) && Grows(s, s') && WellPlaced(cfg.limit, cfg.base, s'.log)
    requires forall f | f in s'.followers :: FollowerOk(cfg, s', f)
    requires forall f | f in s'.sessions ::
               || (f in s.sessions && s'.sessions[f] == s.sessions[f])
               || (f in s'.followers && SessionOk(cfg, s', f))
    requires forall f | f in s'.queues ::
               || (f in s.queues && s'.queues[f] == s.queues[f])
               || (f in s'.followers && QueueOk(cfg, s'.log, s'.queues[f]))
    requires forall f | f in s'.matches ::
               || (f in s.matches && s'.matches[f] == s.matches[f])
               || (f in s'.followers && MatchOk(cfg, s', f))
    requires forall p | p in s'.net :: p in s.net || (p.0 in s'.followers && MessageOk(cfg, s', p.1))
    requires forall p | p in s'.acks :: p in s.acks || (p.0 in s'.followers && AckOk(cfg, s', p.0, p.2))
    requires forall c | c in s'.computed :: c in s.computed || Replicated(cfg, s', c)
    requires forall c | c in s'.checked :: c in s.checked || c in s.computed
    requires s'.committed == s.committed || s'.committed in s.checked
    ensures Inv(cfg, s')
  {
    forall f | f in s'.sessions
      ensures f in s'.followers && SessionOk(cfg, s', f)
    {
      if f in s.sessions && s'.sessions[f] == s.sessions[f] {
        SessionGrows(cfg, s, s', f);
      }
    }
    forall f | f in s'.queues
      ensures f in s'.followers && QueueOk(cfg, s'.log, s'.queues[f])
    {
      if f in s.queues && s'.queues[f] == s.queues[f] {
        QueueGrows(cfg, s.log, s'.log, s.queues[f]);
      }
    }
    forall f | f in s'.matches
      ensures f in s'.followers && MatchOk(cfg, s', f)
    {
      if f in s.matches && s'.matches[f] == s.matches[f] && s.matches[f] != ZERO_OFFSET {
        WithinGrows(cfg.base, s.log, s'.log, |s.followers[f].log|, |s'.followers[f].log|, s.matches[f]);
      }
    }
    forall p | p in s'.net
      ensures p.0 in s'.followers && MessageOk(cfg, s', p.1)
    {
      if p in s.net {
        MessageGrows(cfg, s, s', p.1);
      }
    }
    forall p | p in s'.acks
      ensures p.0 in s'.followers && AckOk(cfg, s', p.0, p.2)
    {
      if p in s.acks {
        AckGrows(cfg, s, s', p.0, p.2);
      }
    }
    forall c | c in s'.computed || c in s'.checked || c == s'.committed
      ensures Replicated(cfg, s', c)
    {
      if c in s.computed || c in s.checked || c == s.committed {
        ReplicatedGrows(cfg, s, s', c);
      }
    }
  }

  /* ---------- the steps ---------- */

  lemma ProposeStep(cfg: Config, s: State, s': State, body: seq<BinlogBytes>)
    requires Inv(cfg, s) && s' == s.(log := Propose(cfg.limit, cfg.base, s.log, s.term, body))
    ensures Grows(s, s') && Inv(cfg, s')
  {
    ProposeKeepsPlaces(cfg.limit, cfg.base, s.log, s.term, body);
    forall f | f in s'.followers
      ensures FollowerOk(cfg, s', f)
    {
      FollowerGrows(cfg, s, s', f);
    }
    InvCarries(cfg, s, s');
  }

  /** Steps that change no log and no commit index. */
  lemma QuietStep(cfg: Config, s: State, s': State)
    requires Inv(cfg, s)
    requires s'.log == s.log && s'.followers == s.followers && s'.committed == s.committed
    ensures Grows(s, s') && forall f | f in s'.followers :: FollowerOk(cfg, s', f)
  {
    forall f | f in s'.followers
      ensures FollowerOk(cfg, s', f)
    {
      assert FollowerOk(cfg, s, f);
    }
  }

  /** Steps in which the leader changes only what it keeps about followers. */
  lemma KeepingStep(cfg: Config, s: State, s': State)
    requires Inv(cfg, s)
    requires s' == s.(term := s'.term, sessions := s'.sessions, queues := s'.queues, matches := s'.matches)
    requires forall f | f in s'.sessions ::
               || (f in s.sessions && s'.sessions[f] == s.sessions[f])
               || (f in s'.followers && SessionOk(cfg, s', f))
    requires forall f | f in s'.queues ::
               || (f in s.queues && s'.queues[f] == s.queues[f])
               || (f in s'.followers && QueueOk(cfg, s'.log, s'.queues[f]))
    requires forall f | f in s'.matches ::
               || (f in s.matches && s'.matches[f] == s.matches[f])
               || (f in s'.followers && MatchOk(cfg, s', f))
    ensures Grows(s, s') && Inv(cfg, s')
  {
    QuietStep(cfg, s, s');
    InvCarries(cfg, s, s');
  }

  /** Steps that change one session and nothing else. */
  lemma SessionStep(cfg: Config, s: State, s': State, f: Follower, t: Session)
    requires Inv(cfg, s) && f in s.followers
    requires s' == s.(sessions := s.sessions[f := t]) && SessionOk(cfg, s', f)
    ensures Grows(s, s') && Inv(cfg, s')
  {
    KeepingStep(cfg, s, s');
  }

  /** Reading starts, or starts again, within the follower's log. */
  lemma ActivateStep(cfg: Config, s: State, s': State, f: Follower, k: nat)
    requires Inv(cfg, s) && f in s.followers && f in s.sessions && k <= |s.followers[f].log| && k <= |s.log|
    requires s' == s.(sessions := s.sessions[f := Activated(cfg.base, s.log, s.sessions[f], k)])
    ensures Grows(s, s') && Inv(cfg, s')
  {
    assert SessionOk(cfg, s, f);
    assert Within(cfg.base, s'.log, |s'.followers[f].log|, s'.sessions[f].acked);
    SessionStep(cfg, s, s', f, s'.sessions[f]);
  }

  /** Items just read are entries of the log and carry no mark. */
  lemma ReadWindow(base: LogOffset, log: seq<Logged>, win: seq<WinItem>, len: nat, i: nat, n: nat)
    requires WindowOk(base, log, win, len) && i + n <= |log|
    ensures WindowOk(base, log, win + WinItemsFor(log, i, n), len)
  {
    var items := WinItemsFor(log, i, n);
    MarksPush(win, items, Ends(base, log, len));
    forall k | 0 <= k < |items|
      ensures items[k].offset in Ends(base, log, |log|)
    {
      assert items[k].offset == OffsetBefore(base, log, i + k + 1);
    }
  }

  /** Tasks just read carry entries of the log. */
  lemma ReadQueue(cfg: Config, log: seq<Logged>, q: seq<Task>, id: int, i: nat, n: nat)
    requires WellPlaced(cfg.limit, cfg.base, log) && QueueOk(cfg, log, q) && i + n <= |log|
    ensures QueueOk(cfg, log, q + TasksFor(cfg.base, log, id, i, n))
  {
    var tasks := TasksFor(cfg.base, log, id, i, n);
    forall k | 0 <= k < |tasks|
      ensures tasks[k].chip.Carry? && Names(cfg.base, log, tasks[k].chip)
    {
      assert Placed(cfg.limit, cfg.base, log, i + k);
    }
  }

  lemma ReadSession(cfg: Config, s: State, s': State, f: Follower, n: nat)
    requires f in s.followers && f in s.sessions && SessionOk(cfg, s, f)
    requires s.sessions[f].active && s.sessions[f].next + n <= |s.log|
    requires s'.log == s.log && s'.followers == s.followers
    requires f in s'.sessions && s'.sessions[f] == ReadInto(cfg.base, s.log, s.sessions[f], n)
    ensures SessionOk(cfg, s', f)
  {
    var t := s.sessions[f];
    ReadWindow(cfg.base, s.log, t.win, |s.followers[f].log|, t.next, n);
  }

  lemma ReadStep(cfg: Config, s: State, s': State, f: Follower, n: nat)
    requires Inv(cfg, s) && f in s.sessions && s.sessions[f].active && s.sessions[f].next + n <= |s.log|
    requires
      var t := s.sessions[f];
      s' == s.(sessions := s.sessions[f := ReadInto(cfg.base, s.log, t, n)],
               queues := s.queues[f := Queue(s, f) + TasksFor(cfg.base, s.log, t.id, t.next, n)])
    ensures Grows(s, s') && Inv(cfg, s')
  {
    var t := s.sessions[f];
    ReadSession(cfg, s, s', f, n);
    ReadQueue(cfg, s.log, Queue(s, f), t.id, t.next, n);
    KeepingStep(cfg, s, s');
  }

  lemma CommitPlace(cfg: Config, s: State)
    requires Inv(cfg, s)
    ensures s.committed.AtMost(cfg.base) || Within(cfg.base, s.log, |s.log|, s.committed)
  {
    if !s.committed.AtMost(cfg.base) {
      var n :| 0 <= n <= |s.log| && s.committed == OffsetBefore(cfg.base, s.log, n) && |Replicas(s, n)| >= cfg.level;
    }
  }

  /** Putting a segment of the log on the wire. */
  lemma WireStep(cfg: Config, s: State, s': State, f: Follower, m: Message)
    requires Inv(cfg, s) && f in s.followers
    requires s' == s.(net := s.net + {(f, m)})
    requires m.commit == s.committed && FromLog(cfg.base, s.log, m.chips)
    ensures Grows(s, s') && Inv(cfg, s')
  {
    CommitPlace(cfg, s);
    QuietStep(cfg, s, s');
    assert MessageOk(cfg, s', m);
    InvCarries(cfg, s, s');
  }

  /** Taking tasks off the front of a queue. */
  lemma DropQueueStep(cfg: Config, s: State, s': State, f: Follower, q: seq<Task>)
    requires Inv(cfg, s)
    requires (s' == s.(queues := s.queues[f := q]) && f in s.followers && QueueOk(cfg, s.log, q)) || s' == s.(queues := s.queues - {f})
    ensures Grows(s, s') && Inv(cfg, s')
  {
    KeepingStep(cfg, s, s');
  }

  /** A batch carries entries of the log. */
  lemma BatchFromLog(cfg: Config, log: seq<Logged>, tasks: seq<Task>, commit: LogOffset, term: nat)
    requires QueueOk(cfg, log, tasks)
    ensures FromLog(cfg.base, log, MessageFor(tasks, commit, term).chips)
  {
  }

  lemma SendStep(cfg: Config, s: State, s': State, f: Follower, n: nat)
    requires Inv(cfg, s) && 0 < n <= |Queue(s, f)|
    requires
      var q := Queue(s, f);
      s' == s.(queues := s.queues[f := q[n..]],
               net := s.net + {(f, MessageFor(q[..n], s.committed, s.term))})
    ensures Grows(s, s') && Inv(cfg, s')
  {
    var q := Queue(s, f);
    var m := MessageFor(q[..n], s.committed, s.term);
    var mid := s.(net := s.net + {(f, m)});
    assert QueueOk(cfg, s.log, q);
    BatchFromLog(cfg, s.log, q[..n], s.committed, s.term);
    WireStep(cfg, s, mid, f, m);
    assert f in mid.followers && QueueOk(cfg, mid.log, q[n..]);
    DropQueueStep(cfg, mid, s', f, q[n..]);
    GrowsOn(s, mid, s');
  }

  lemma PingStep(cfg: Config, s: State, s': State, f: Follower)
    requires Inv(cfg, s) && f in s.sessions
    requires s' == s.(net := s.net + {(f, Message(s.term, ZERO_OFFSET, s.committed, [KeepAlive(s.sessions[f].id)]))})
    ensures Grows(s, s') && Inv(cfg, s')
  {
    var m := Message(s.term, ZERO_OFFSET, s.committed, [KeepAlive(s.sessions[f].id)]);
    WireStep(cfg, s, s', f, m);
  }

  /** Joining, leaving and a change of term. */
  lemma MemberStep(cfg: Config, s: State, s': State, f: Follower, id: int)
    requires Inv(cfg, s) && f in s.followers
    requires s' == if f in s.sessions then s.(sessions := s.sessions[f := s.sessions[f].(id := id)])
                   else s.(sessions := s.sessions[f := NewSession(id)], matches := s.matches[f := ZERO_OFFSET])
    ensures Grows(s, s') && Inv(cfg, s')
  {
    if f in s.sessions {
      assert SessionOk(cfg, s, f);
      SessionStep(cfg, s, s', f, s'.sessions[f]);
    } else {
      KeepingStep(cfg, s, s');
    }
  }

  /** Joining again renews the session's number and keeps what is known of the follower;
      leaving forgets it, and a later commit index no longer counts it. */
  lemma MembershipMeans(cfg: Config, s: State, f: Follower, id: int, h: Follower)
    requires f in s.followers && h != f
    ensures
      var s' := Apply(cfg, s, AddSlaveNode(f, id));
      && f in s'.sessions && s'.sessions[f].id == id && s'.queues == s.queues
      && (if f in s.sessions then s'.sessions[f].win == s.sessions[f].win && s'.matches == s.matches
          else s'.sessions[f].win == [] && !s'.sessions[f].active && s'.matches == s.matches[f := ZERO_OFFSET])
    ensures
      var s' := Apply(cfg, s, RemoveSlaveNode(f));
      && f !in s'.sessions && f !in s'.matches && s'.queues == s.queues
      && (h in s'.matches <==> h in s.matches) && (h in s.matches ==> s'.matches[h] == s.matches[h])
    ensures Queue(Apply(cfg, s, DropQueue(f)), f) == [] && Queue(Apply(cfg, s, DropQueue(f)), h) == Queue(s, h)
  {
  }

  lemma LeaveStep(cfg: Config, s: State, s': State, f: Follower, term: nat)
    requires Inv(cfg, s)
    requires s' == s.(term := term) || s' == s.(sessions := s.sessions - {f}, matches := s.matches - {f})
    ensures Grows(s, s') && Inv(cfg, s')
  {
    KeepingStep(cfg, s, s');
  }

  /** A step of one follower alone: its log grows within the leader's, and any
      acknowledgement it sends is sound. */
  lemma FollowerStep(cfg: Config, s: State, s': State, f: Follower, g: FollowerState, sent: set<(Follower, int, Ack)>)
    requires Inv(cfg, s) && f in s.followers
    requires s' == s.(followers := s.followers[f := g], acks := s.acks + sent)
    requires s.followers[f].log <= g.log && FollowerOk(cfg, s', f)
    requires forall p | p in sent :: p.0 == f && AckOk(cfg, s', f, p.2)
    ensures Grows(s, s') && Inv(cfg, s')
  {
    OthersKept(cfg, s, s', f, g);
    InvCarries(cfg, s, s');
  }

  lemma OthersKept(cfg: Config, s: State, s': State, f: Follower, g: FollowerState)
    requires (forall h | h in s.followers :: FollowerOk(cfg, s, h)) && f in s.followers
    requires s'.followers == s.followers[f := g] && s'.log == s.log && s'.committed == s.committed
    requires s.followers[f].log <= g.log && FollowerOk(cfg, s', f)
    ensures Grows(s, s')
    ensures forall h | h in s'.followers :: FollowerOk(cfg, s', h)
  {
    forall h | h in s'.followers
      ensures FollowerOk(cfg, s', h)
    {
      if h != f {
        assert FollowerOk(cfg, s, h);
      }
    }
  }

  lemma ReconnectStep(cfg: Config, s: State, s': State, f: Follower, state: ReplState, id: int)
    requires Inv(cfg, s) && f in s.followers
    requires s' == s.(followers := s.followers[f := s.followers[f].(state := state, session := id)])
    ensures Grows(s, s') && Inv(cfg, s')
  {
    assert FollowerOk(cfg, s, f);
    assert s'.acks == s.acks + {};
    FollowerStep(cfg, s, s', f, s'.followers[f], {});
  }

  /** The commit index a follower takes from a message is within its own log. */
  lemma CommitWithinLog(cfg: Config, s: State, m: Message, glog: seq<Logged>, committed: LogOffset, c: LogOffset)
    requires WellPlaced(cfg.limit, cfg.base, s.log) && glog <= s.log
    requires m.commit.AtMost(s.committed)
    requires m.commit.AtMost(cfg.base) || Within(cfg.base, s.log, |s.log|, m.commit)
    requires committed.AtMost(s.committed)
    requires committed.AtMost(cfg.base) || Within(cfg.base, s.log, |glog|, committed)
    requires c == committed || CommitsUpTo(committed, LastOffset(cfg.base, glog), m.commit, c)
    ensures c.AtMost(s.committed) && (c.AtMost(cfg.base) || Within(cfg.base, s.log, |glog|, c))
  {
    var last := LastOffset(cfg.base, glog);
    assert last == OffsetBefore(cfg.base, s.log, |glog|);
    if c != committed && c != last && !c.AtMost(cfg.base) {
      var n :| 0 <= n <= |s.log| && c == OffsetBefore(cfg.base, s.log, n);
      OffsetUnique(cfg.limit, cfg.base, s.log, n, |glog|);
    }
  }

  lemma GarbledFromLog(base: LogOffset, log: seq<Logged>, m: Message, bad: nat)
    requires FromLog(base, log, m.chips)
    ensures FromLog(base, log, Garbled(m, bad).chips)
  {
    var chips := Garbled(m, bad).chips;
    forall k | 0 <= k < |chips| && chips[k].Carry?
      ensures Names(base, log, chips[k])
    {
      assert Names(base, log, m.chips[k]);
    }
  }

  /** A delivery keeps a prefix of the leader's log exactly when what is taken in fits. */
  lemma DeliveryExact(cfg: Config, s: State, f: Follower, m: Message, bad: nat)
    requires Inv(cfg, s) && f in s.followers && (f, m) in s.net
    ensures
      var log' := Deliver(cfg.limit, cfg.base, s.followers[f], Garbled(m, bad)).0.log;
      s.followers[f].log <= log' && (log' <= s.log <==> TakenFits(cfg, s, Receive(f, m, bad)))
  {
    assert FollowerOk(cfg, s, f) && MessageOk(cfg, s, (f, m).1);
    GarbledFromLog(cfg.base, s.log, m, bad);
    DeliverSafeIffFits(cfg.limit, cfg.base, s.log, s.followers[f], Garbled(m, bad));
  }

  lemma ReceiveStep(cfg: Config, s: State, s': State, f: Follower, m: Message, bad: nat)
    requires Inv(cfg, s) && f in s.followers && (f, m) in s.net && TakenFits(cfg, s, Receive(f, m, bad))
    requires
      var (g, ack) := Deliver(cfg.limit, cfg.base, s.followers[f], Garbled(m, bad));
      s' == s.(followers := s.followers[f := g], acks := s.acks + if ack.Some? then {(f, g.session, ack.value)} else {})
    ensures Grows(s, s') && Inv(cfg, s')
  {
    var f0 := s.followers[f];
    var (g, ack) := Deliver(cfg.limit, cfg.base, f0, Garbled(m, bad));
    assert FollowerOk(cfg, s, f) && MessageOk(cfg, s, (f, m).1);
    DeliveryExact(cfg, s, f, m, bad);
    ReceivedFollower(cfg, s, s', f, Garbled(m, bad), g);
    var sent := if ack.Some? then {(f, g.session, ack.value)} else {};
    if ack.Some? {
      AckEnds(cfg, s.log, f0, Garbled(m, bad));
      assert AckOk(cfg, s', f, ack.value);
    }
    FollowerStep(cfg, s, s', f, g, sent);
  }

  /** A message that is acknowledged commits: by a follower whose log then reaches the
      leader's commit index up to that index, by any other up to the end of its log. */
  lemma ReceiveCommits(cfg: Config, s: State, f: Follower, m: Message, bad: nat)
    requires Enabled(cfg, s, Receive(f, m, bad)) && Acknowledges(cfg.base, s.followers[f], Garbled(m, bad))
    ensures
      var g := Apply(cfg, s, Receive(f, m, bad)).followers[f];
      && CommitsUpTo(s.followers[f].committed, LastOffset(cfg.base, g.log), m.commit, g.committed)
      && (m.commit.AtMost(LastOffset(cfg.base, g.log)) ==> m.commit.AtMost(g.committed))
  {
    DeliverExactly(cfg.limit, cfg.base, s.followers[f], Garbled(m, bad));
    DeliverCommits(cfg.limit, cfg.base, s.followers[f], Garbled(m, bad));
  }

  /** An acknowledgement of records ends where the follower's log ends. */
  lemma AckEnds(cfg: Config, log: seq<Logged>, f: FollowerState, m: Message)
    requires Deliver(cfg.limit, cfg.base, f, m).0.log <= log && Deliver(cfg.limit, cfg.base, f, m).1.Some?
    ensures
      var (g, ack) := Deliver(cfg.limit, cfg.base, f, m);
      || (ack.value.start.Same(ZERO_OFFSET) && ack.value.end.Same(ZERO_OFFSET))
      || ack.value.end.Same(OffsetBefore(cfg.base, log, |g.log|))
  {
  }

  lemma ReceivedFollower(cfg: Config, s: State, s': State, f: Follower, m: Message, g: FollowerState)
    requires WellPlaced(cfg.limit, cfg.base, s.log)
    requires f in s.followers && FollowerOk(cfg, s, f) && m.commit.AtMost(s.committed)
    requires m.commit.AtMost(cfg.base) || Within(cfg.base, s.log, |s.log|, m.commit)
    requires g == Deliver(cfg.limit, cfg.base, s.followers[f], m).0
    requires s.followers[f].log <= g.log <= s.log
    requires s'.log == s.log && s'.committed == s.committed && f in s'.followers && s'.followers[f] == g
    ensures FollowerOk(cfg, s', f)
  {
    var f0 := s.followers[f];
    DeliverCommits(cfg.limit, cfg.base, f0, m);
    if !f0.committed.AtMost(cfg.base) {
      WithinGrows(cfg.base, s.log, s.log, |f0.log|, |g.log|, f0.committed);
    }
    CommitWithinLog(cfg, s, m, g.log, f0.committed, g.committed);
    OffsetsIncrease(cfg.limit, cfg.base, s.log, 0, |f0.log|);
    OffsetsIncrease(cfg.limit, cfg.base, s.log, 0, |g.log|);
    assert LastOffset(cfg.base, g.log) == OffsetBefore(cfg.base, s.log, |g.log|);
    assert LastOffset(cfg.base, f0.log) == OffsetBefore(cfg.base, s.log, |f0.log|);
  }

  /** The item at which an acknowledgement ends is one the follower holds. */
  lemma EndIsHeld(cfg: Config, log: seq<Logged>, o: LogOffset, end: LogOffset, n: nat, len: nat)
    requires WellPlaced(cfg.limit, cfg.base, log) && Within(cfg.base, log, |log|, o) && o.Same(end)
    requires n <= len && n <= |log| && end.Same(OffsetBefore(cfg.base, log, n))
    ensures Within(cfg.base, log, len, o)
  {
    var j :| 0 <= j <= |log| && o == OffsetBefore(cfg.base, log, j);
    OffsetUnique(cfg.limit, cfg.base, log, j, n);
  }

  lemma AckedSession(cfg: Config, s: State, s': State, f: Follower, a: Ack)
    requires WellPlaced(cfg.limit, cfg.base, s.log)
    requires f in s.followers && f in s.sessions && SessionOk(cfg, s, f) && AckOk(cfg, s, f, a)
    requires !(a.start.Same(ZERO_OFFSET) && a.end.Same(ZERO_OFFSET)) && s.sessions[f].active
    requires RangeFound(s.sessions[f].win, a.start, a.end)
    requires s'.log == s.log && s'.followers == s.followers
    requires f in s'.sessions && s'.sessions[f] == AckSession(s.sessions[f], a.start, a.end)
    ensures SessionOk(cfg, s', f)
  {
    var t, len := s.sessions[f], |s.followers[f].log|;
    var last := t.win[FirstIndexOf(t.win, a.end)].offset;
    assert last in Ends(cfg.base, s.log, |s.log|);
    var n :| 0 <= n <= len && n <= |s.log| && a.end.Same(OffsetBefore(cfg.base, s.log, n));
    EndIsHeld(cfg, s.log, last, a.end, n, len);
    AcknowledgedHeld(t.win, a.start, a.end, Ends(cfg.base, s.log, len));
    AcknowledgedIn(t.win, a.start, a.end, Ends(cfg.base, s.log, |s.log|));
  }

  lemma AcknowledgedIn(win: seq<WinItem>, start: LogOffset, end: LogOffset, all: iset<LogOffset>)
    requires RangeFound(win, start, end) && ItemsIn(win, all)
    ensures
      var marked := Acknowledged(win, start, end);
      ItemsIn(marked[AckedFront(marked)..], all)
  {
  }

  lemma UpdateSlaveStep(cfg: Config, s: State, s': State, f: Follower, id: int, a: Ack)
    requires Inv(cfg, s) && f in s.sessions && s.sessions[f].active && (f, id, a) in s.acks
    requires !(a.start.Same(ZERO_OFFSET) && a.end.Same(ZERO_OFFSET))
    requires RangeFound(s.sessions[f].win, a.start, a.end)
    requires
      var t := AckSession(s.sessions[f], a.start, a.end);
      s' == s.(sessions := s.sessions[f := t], matches := s.matches[f := t.acked])
    ensures Grows(s, s') && Inv(cfg, s')
  {
    assert AckOk(cfg, s, (f, id, a).0, (f, id, a).2);
    AckedSession(cfg, s, s', f, a);
    KeepingStep(cfg, s, s');
  }

  /** The computed index ends a prefix of the log that enough followers hold. */
  lemma CalculatedIsReplicated(cfg: Config, s: State, c: LogOffset)
    requires Inv(cfg, s) && IsCommitIndex(s.matches, cfg.level, c)
    ensures Replicated(cfg, s, c)
  {
    if !c.AtMost(cfg.base) {
      assert c in s.matches.Values;
      var f :| f in s.matches && s.matches[f] == c;
      assert MatchOk(cfg, s, f);
      var n :| 0 <= n <= |s.followers[f].log| && n <= |s.log| && c == OffsetBefore(cfg.base, s.log, n);
      forall h | h in Holders(s.matches, c)
        ensures h in Replicas(s, n)
      {
        HolderReplicates(cfg, s, h, n);
      }
      SubsetSize(Holders(s.matches, c), Replicas(s, n));
    }
  }

  lemma HolderReplicates(cfg: Config, s: State, h: Follower, n: nat)
    requires Inv(cfg, s) && h in s.matches && n <= |s.log|
    requires !OffsetBefore(cfg.base, s.log, n).AtMost(cfg.base)
    requires OffsetBefore(cfg.base, s.log, n).AtMost(s.matches[h])
    ensures h in Replicas(s, n)
  {
    assert MatchOk(cfg, s, h);
    if s.matches[h] != ZERO_OFFSET {
      var k :| 0 <= k <= |s.followers[h].log| && k <= |s.log| && s.matches[h] == OffsetBefore(cfg.base, s.log, k);
      OffsetUnique(cfg.limit, cfg.base, s.log, n, k);
    }
  }

  lemma CalculateStep(cfg: Config, s: State, s': State, c: LogOffset)
    requires Inv(cfg, s) && IsCommitIndex(s.matches, cfg.level, c)
    requires s' == s.(computed := s.computed + {c})
    ensures Grows(s, s') && Inv(cfg, s')
  {
    QuietStep(cfg, s, s');
    CalculatedIsReplicated(cfg, s, c);
    ReplicatedGrows(cfg, s, s', c);
    InvCarries(cfg, s, s');
  }

  lemma CheckTermStep(cfg: Config, s: State, s': State, c: LogOffset)
    requires Inv(cfg, s) && c in s.computed
    requires s' == s.(computed := s.computed - {c}, checked := if c.l.term == s.term then s.checked + {c} else s.checked)
    ensures Grows(s, s') && Inv(cfg, s')
  {
    QuietStep(cfg, s, s');
    InvCarries(cfg, s, s');
  }

  lemma CommitStep(cfg: Config, s: State, s': State, c: LogOffset)
    requires Inv(cfg, s) && c in s.checked
    requires s' == s.(checked := s.checked - {c}, committed := if c.AtMost(s.committed) then s.committed else c)
    ensures Grows(s, s') && Inv(cfg, s')
  {
    forall f | f in s'.followers
      ensures FollowerOk(cfg, s', f)
    {
      assert FollowerOk(cfg, s, f);
    }
    InvCarries(cfg, s, s');
  }

  lemma LeaderStep(cfg: Config, s: State, step: Step)
    requires Inv(cfg, s) && Enabled(cfg, s, step)
    requires step.ProposeLog? || step.UpdateTerm? || step.AddSlaveNode? || step.Activate? || step.RemoveSlaveNode?
    ensures Grows(s, Apply(cfg, s, step)) && Inv(cfg, Apply(cfg, s, step))
  {
    var s' := Apply(cfg, s, step);
    match step
    case ProposeLog(body) => ProposeStep(cfg, s, s', body);
    case UpdateTerm(term) => LeaveStep(cfg, s, s', "", term);
    case AddSlaveNode(f, id) => MemberStep(cfg, s, s', f, id);
    case Activate(f, k) => ActivateStep(cfg, s, s', f, k);
    case RemoveSlaveNode(f) => LeaveStep(cfg, s, s', f, 0);
  }

  lemma QueueStep(cfg: Config, s: State, step: Step)
    requires Inv(cfg, s) && Enabled(cfg, s, step)
    requires step.ReadBinlog? || step.DropQueue?
    ensures Grows(s, Apply(cfg, s, step)) && Inv(cfg, Apply(cfg, s, step))
  {
    var s' := Apply(cfg, s, step);
    match step
    case ReadBinlog(f, n) => ReadStep(cfg, s, s', f, n);
    case DropQueue(f) => DropQueueStep(cfg, s, s', f, []);
  }

  lemma LinkStep(cfg: Config, s: State, step: Step)
    requires Inv(cfg, s) && Enabled(cfg, s, step)
    requires step.Send? || step.Ping? || step.UpdateSlave?
    ensures Grows(s, Apply(cfg, s, step)) && Inv(cfg, Apply(cfg, s, step))
  {
    var s' := Apply(cfg, s, step);
    match step
    case Send(f, n) => SendStep(cfg, s, s', f, n);
    case Ping(f) => PingStep(cfg, s, s', f);
    case UpdateSlave(f, id, a) => UpdateSlaveStep(cfg, s, s', f, id, a);
  }

  lemma IndexStep(cfg: Config, s: State, step: Step)
    requires Inv(cfg, s) && Enabled(cfg, s, step)
    requires step.Calculate? || step.CheckTerm? || step.Commit?
    ensures Grows(s, Apply(cfg, s, step)) && Inv(cfg, Apply(cfg, s, step))
  {
    var s' := Apply(cfg, s, step);
    match step
    case Calculate(c) => CalculateStep(cfg, s, s', c);
    case CheckTerm(c) => CheckTermStep(cfg, s, s', c);
    case Commit(c) => CommitStep(cfg, s, s', c);
  }

  lemma PeerStep(cfg: Config, s: State, step: Step)
    requires Inv(cfg, s) && Enabled(cfg, s, step) && TakenFits(cfg, s, step)
    requires step.Receive? || step.Reconnect?
    ensures Grows(s, Apply(cfg, s, step)) && Inv(cfg, Apply(cfg, s, step))
  {
    var s' := Apply(cfg, s, step);
    match step
    case Receive(f, m, bad) => ReceiveStep(cfg, s, s', f, m, bad);
    case Reconnect(f, state, id) => ReconnectStep(cfg, s, s', f, state, id);
  }

  /** Every step keeps the invariant, and logs and commit index only grow, unless a
      follower takes in a message that does not fit. */
  lemma StepKeepsInv(cfg: Config, s: State, step: Step)
    requires Inv(cfg, s) && Enabled(cfg, s, step) && TakenFits(cfg, s, step)
    ensures Grows(s, Apply(cfg, s, step)) && Inv(cfg, Apply(cfg, s, step))
  {
    if step.Receive? || step.Reconnect? {
      PeerStep(cfg, s, step);
    } else if step.ReadBinlog? || step.DropQueue? {
      QueueStep(cfg, s, step);
    } else if step.Send? || step.Ping? || step.UpdateSlave? {
      LinkStep(cfg, s, step);
    } else if step.Calculate? || step.CheckTerm? || step.Commit? {
      IndexStep(cfg, s, step);
    } else {
      LeaderStep(cfg, s, step);
    }
  }

  /* ---------- runs ---------- */

  ghost predicate StepAt(cfg: Config, run: seq<State>, i: int)
    requires 0 < i < |run|
  {
    Next(cfg, run[i - 1], run[i])
  }

  ghost predicate IsRun(cfg: Config, run: seq<State>) {
    && |run| > 0 && Init(cfg, run[0])
    && forall i | 0 < i < |run| :: StepAt(cfg, run, i)
  }

  lemma InitInv(cfg: Config, s: State)
    requires Init(cfg, s)
    ensures Inv(cfg, s)
  {
    forall f | f in s.followers
      ensures FollowerOk(cfg, s, f)
    {
      var g := s.followers[f];
      assert g.committed.AtMost(cfg.base);
    }
  }

  /** A step in which what is taken in, if anything, fits. */
  ghost predicate FitNext(cfg: Config, s: State, s': State) {
    exists step :: Enabled(cfg, s, step) && s' == Apply(cfg, s, step) && TakenFits(cfg, s, step)
  }

  ghost predicate FitAt(cfg: Config, run: seq<State>, i: int)
    requires 0 < i < |run|
  {
    FitNext(cfg, run[i - 1], run[i])
  }

  /** Up to state `j` every message taken in fits. */
  ghost predicate AllFit(cfg: Config, run: seq<State>, j: nat) {
    forall i | 0 < i <= j && i < |run| :: FitAt(cfg, run, i)
  }

  lemma RunStep(cfg: Config, s: State, s': State)
    requires Inv(cfg, s) && FitNext(cfg, s, s')
    ensures Grows(s, s') && Inv(cfg, s')
  {
    var step :| Enabled(cfg, s, step) && s' == Apply(cfg, s, step) && TakenFits(cfg, s, step);
    StepKeepsInv(cfg, s, step);
  }

  lemma {:induction false} RunInv(cfg: Config, run: seq<State>, j: nat)
    requires IsRun(cfg, run) && j < |run| && AllFit(cfg, run, j)
    ensures Inv(cfg, run[j])
  {
    if j == 0 {
      InitInv(cfg, run[0]);
    } else {
      assert FitAt(cfg, run, j);
      RunInv(cfg, run, j - 1);
      RunStep(cfg, run[j - 1], run[j]);
    }
  }

  lemma {:induction false} RunGrows(cfg: Config, run: seq<State>, i: nat, j: nat)
    requires IsRun(cfg, run) && i <= j < |run| && AllFit(cfg, run, j)
    ensures Grows(run[i], run[j])
  {
    if i < j {
      assert FitAt(cfg, run, j);
      RunGrows(cfg, run, i, j - 1);
      RunInv(cfg, run, j - 1);
      RunStep(cfg, run[j - 1], run[j]);
      GrowsOn(run[i], run[j - 1], run[j]);
    }
  }

  lemma GrowsOn(a: State, b: State, c: State)
    requires Grows(a, b) && Grows(b, c)
    ensures Grows(a, c)
  {
    forall f | f in a.followers
      ensures a.followers[f].log <= c.followers[f].log
    {
      assert a.followers[f].log <= b.followers[f].log;
    }
  }

  /** Gap-free replication: in every run, whatever messages are lost, repeated or
      reordered and however often followers are activated, a follower's log is a prefix
      of the leader's, with the same physical positions, and it never loses an entry,
      as long as every message taken in fits. */
  lemma ReplicationSafe(cfg: Config, run: seq<State>, i: nat, j: nat, f: Follower)
    requires IsRun(cfg, run) && i <= j < |run| && f in run[i].followers && AllFit(cfg, run, j)
    ensures f in run[j].followers
    ensures run[i].followers[f].log <= run[j].followers[f].log <= run[j].log
  {
    RunGrows(cfg, run, i, j);
    RunInv(cfg, run, j);
    assert FollowerOk(cfg, run[j], f);
  }

  /* ---------- exactly which runs are safe ---------- */

  ghost predicate HoldPrefixes(s: State) {
    forall f | f in s.followers :: s.followers[f].log <= s.log
  }

  lemma StepExact(cfg: Config, s: State, s': State)
    requires Inv(cfg, s) && Next(cfg, s, s') && HoldPrefixes(s')
    ensures FitNext(cfg, s, s')
  {
    var step :| Enabled(cfg, s, step) && s' == Apply(cfg, s, step);
    if step.Receive? {
      DeliveryExact(cfg, s, step.f, step.m, step.bad);
      assert step.f in s'.followers;
    }
  }

  lemma {:induction false} PrefixesFit(cfg: Config, run: seq<State>, j: nat)
    requires IsRun(cfg, run) && j < |run|
    requires forall i | 0 <= i <= j :: HoldPrefixes(run[i])
    ensures AllFit(cfg, run, j)
  {
    if j > 0 {
      PrefixesFit(cfg, run, j - 1);
      RunInv(cfg, run, j - 1);
      assert StepAt(cfg, run, j);
      StepExact(cfg, run[j - 1], run[j]);
      assert FitAt(cfg, run, j);
    }
  }

  /** In any run, the followers hold prefixes of the leader's log in every state up to `j`
      exactly when every message taken in up to there fits. */
  lemma ReplicationExact(cfg: Config, run: seq<State>, j: nat)
    requires IsRun(cfg, run) && j < |run|
    ensures (forall i | 0 <= i <= j :: HoldPrefixes(run[i])) <==> AllFit(cfg, run, j)
  {
    if AllFit(cfg, run, j) {
      forall i | 0 <= i <= j
        ensures HoldPrefixes(run[i])
      {
        PrefixesAt(cfg, run, i);
      }
    }
    if forall i | 0 <= i <= j :: HoldPrefixes(run[i]) {
      PrefixesFit(cfg, run, j);
    }
  }

  lemma PrefixesAt(cfg: Config, run: seq<State>, i: nat)
    requires IsRun(cfg, run) && i < |run| && AllFit(cfg, run, i)
    ensures HoldPrefixes(run[i])
  {
    RunInv(cfg, run, i);
    forall f | f in run[i].followers
      ensures run[i].followers[f].log <= run[i].log
    {
      assert FollowerOk(cfg, run[i], f);
    }
  }

  /** Nothing sent is ever taken back: the network may still deliver it. */
  lemma NetGrows(cfg: Config, s: State, s': State)
    requires Next(cfg, s, s')
    ensures s.net <= s'.net && (NetFits(s') ==> NetFits(s) && FitNext(cfg, s, s'))
  {
    var step :| Enabled(cfg, s, step) && s' == Apply(cfg, s, step);
    NetKept(cfg, s, step);
    if NetFits(s') {
      SentFits(cfg, s, step);
    }
  }

  lemma NetKept(cfg: Config, s: State, step: Step)
    requires Enabled(cfg, s, step)
    ensures s.net <= Apply(cfg, s, step).net
  {
  }

  /** A leader that sends only messages that fit is always safe. */
  lemma {:induction false} AllSentFit(cfg: Config, run: seq<State>, j: nat)
    requires IsRun(cfg, run) && j < |run| && NetFits(run[j])
    ensures AllFit(cfg, run, j)
  {
    if j > 0 {
      assert StepAt(cfg, run, j);
      NetGrows(cfg, run[j - 1], run[j]);
      AllSentFit(cfg, run, j - 1);
      assert FitAt(cfg, run, j);
    }
  }

  /* ---------- commits ---------- */

  /** Commit safety: in every such run the leader's commit index never decreases, and it is
      always the end of a prefix of its log that at least `level` followers hold. */
  lemma CommitSafe(cfg: Config, run: seq<State>, i: nat, j: nat)
    requires IsRun(cfg, run) && i <= j < |run| && AllFit(cfg, run, j)
    ensures run[i].committed.AtMost(run[j].committed)
    ensures Replicated(cfg, run[j], run[j].committed)
  {
    RunGrows(cfg, run, i, j);
    RunInv(cfg, run, j);
  }

  /** No follower commits past the leader or past its own log, so what any two nodes
      have committed are prefixes of one log. */
  lemma FollowerCommitSafe(cfg: Config, run: seq<State>, j: nat, f: Follower)
    requires IsRun(cfg, run) && j < |run| && f in run[j].followers && AllFit(cfg, run, j)
    ensures run[j].followers[f].committed.AtMost(run[j].committed)
    ensures run[j].followers[f].committed.AtMost(cfg.base) ||
            Within(cfg.base, run[j].log, |run[j].followers[f].log|, run[j].followers[f].committed)
  {
    RunInv(cfg, run, j);
    assert FollowerOk(cfg, run[j], f);
  }

  /** Some state of the run before `j` had computed `c` and was in the term of `c`. */
  ghost predicate TermChecked(run: seq<State>, j: nat, c: LogOffset) {
    exists i :: 0 <= i < j && i < |run| && c in run[i].computed && run[i].term == c.l.term
  }

  lemma OthersLeaveCommit(cfg: Config, s: State, step: Step)
    requires Enabled(cfg, s, step) && !step.CheckTerm? && !step.Commit?
    ensures Apply(cfg, s, step).checked == s.checked && Apply(cfg, s, step).committed == s.committed
  {
  }

  lemma NextChecks(cfg: Config, s: State, s': State)
    requires Next(cfg, s, s')
    ensures forall c | c in s'.checked :: c in s.checked || (c in s.computed && s.term == c.l.term)
    ensures s'.committed == s.committed || s'.committed in s.checked
  {
    var step :| Enabled(cfg, s, step) && s' == Apply(cfg, s, step);
    if step.CheckTerm? {
      assert s'.committed == s.committed;
    } else if !step.Commit? {
      OthersLeaveCommit(cfg, s, step);
    }
  }

  lemma {:induction false} CheckedInTerm(cfg: Config, run: seq<State>, j: nat)
    requires IsRun(cfg, run) && j < |run|
    ensures forall c | c in run[j].checked :: TermChecked(run, j, c)
    ensures run[j].committed == run[0].committed || TermChecked(run, j, run[j].committed)
  {
    if j > 0 {
      CheckedInTerm(cfg, run, j - 1);
      assert StepAt(cfg, run, j);
      NextChecks(cfg, run[j - 1], run[j]);
      forall c | c in run[j].checked
        ensures TermChecked(run, j, c)
      {
        assert c in run[j - 1].checked ==> TermChecked(run, j - 1, c);
      }
    }
  }

  /** The commit index only ever moves to an offset of the term the leader was in when
      the offset was checked. */
  lemma CommitsOwnTerm(cfg: Config, run: seq<State>, j: nat)
    requires IsRun(cfg, run) && j < |run| && run[j].committed != run[0].committed
    ensures TermChecked(run, j, run[j].committed)
  {
    CheckedInTerm(cfg, run, j);
  }
}
