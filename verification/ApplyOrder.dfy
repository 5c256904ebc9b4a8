/**
 From the log of a partition to its database, as a state machine. Entries are
 appended, the commit index advances, and each advance later hands a prefix of what
 is waiting to the workers; advances and hand-overs come from many threads and
 interleave. Workers finish in any order. A follower may cut its log back, and the
 node may restart.
 */
module ApplyOrder {
  import opened BinlogFormat
  import opened Offsets
  import opened SyncWindow
  import opened ReplicatedLog
  import opened MemLog

  datatype Config = Config(limit: nat, base: LogOffset)

  datatype Node = Node(
    log: seq<Logged>,          // stable log, from the base on
    mem: seq<Logged>,
    last: LogOffset,           // last offset of the memory log
    committed: LogOffset,
    pending: set<LogOffset>,   // advances whose hand-over has not run yet
    handed: seq<Logged>,       // handed to the workers, in order
    done: set<nat>,            // which of those have finished
    win: seq<WinItem>,
    applied: LogOffset)

  datatype Step =
    | Append(term: nat, body: seq<byte>)
    | Advance(n: nat)
    | Schedule(c: LogOffset)
    | Finish(i: nat)
    | Truncate(n: nat)
    | Restart

  /** A commit index is the end of a prefix of the log. Entries are cut back no further
      than the commit index, and to the commit index itself only when no committed
      entry still waits to be handed over. */
  predicate Enabled(cfg: Config, s: Node, step: Step) {
    match step
    case Append(_, _) => true
    case Advance(n) => n <= |s.log|
    case Schedule(c) => c in s.pending
    case Finish(i) => i < |s.handed| && i !in s.done
    case Truncate(n) =>
      && n <= |s.log| && s.committed.AtMost(OffsetBefore(cfg.base, s.log, n))
      && (OffsetBefore(cfg.base, s.log, n).l.index == s.committed.l.index ==> Find(s.mem, s.committed) < 0)
    case Restart => !s.applied.Same(ZERO_OFFSET) || s.log == []
  }

  function HandOver(s: Node, c: LogOffset): Node {
    var n := Find(s.mem, c) + 1;
    s.(pending := s.pending - {c}, handed := s.handed + s.mem[..n], mem := s.mem[n..], win := s.win + Waiting(s.mem[..n]))
  }

  /** Cuts both logs back to the entry at `o`, the end of the first `n`. At the commit
      index the memory log is simply emptied. */
  function CutBack(s: Node, o: LogOffset, n: nat): Node
    requires n <= |s.log|
  {
    if o.l.index == s.committed.l.index then s.(mem := [], last := s.committed, log := s.log[..n])
    else
      var k := Find(s.mem, o);
      if k < 0 then s else s.(mem := s.mem[..k + 1], last := s.mem[k].Offset(), log := s.log[..n])
  }

  /** Position in the log up to which everything has finished, by the applied index. */
  function AppliedCount(s: Node): nat {
    if |s.win| <= |s.handed| then |s.handed| - |s.win| else 0
  }

  /** Loads the memory log with what follows the applied index; with no applied index
      nothing is loaded. */
  function Reload(cfg: Config, s: Node): Node {
    var p := AppliedCount(s);
    var s' := s.(committed := s.applied, pending := {}, win := []);
    if s.applied.Same(ZERO_OFFSET) || p > |s.log| then s'.(mem := [], last := ZERO_OFFSET, handed := [], done := {})
    else s'.(mem := s.log[p..], last := LastOffset(s.applied, s.log[p..]), handed := s.log[..p], done := set i | i in s.done && i < p)
  }

  function Apply(cfg: Config, s: Node, step: Step): Node
    requires Enabled(cfg, s, step)
  {
    match step
    case Append(term, body) =>
      var log := Propose(cfg.limit, cfg.base, s.log, term, body);
      s.(log := log, mem := s.mem + [log[|log| - 1]], last := log[|log| - 1].Offset())
    case Advance(n) =>
      var c := OffsetBefore(cfg.base, s.log, n);
      if c.AtMost(s.committed) then s else s.(committed := c, pending := s.pending + {c})
    case Schedule(c) => HandOver(s, c)
    case Finish(i) =>
      var (win, applied) := Finished(s.win, s.applied, s.handed[i].Offset());
      s.(win := win, applied := applied, done := s.done + {i})
    case Truncate(n) => CutBack(s, OffsetBefore(cfg.base, s.log, n), n)
    case Restart => Reload(cfg, s)
  }

  /** A log that starts at the zero position has no entries before it. */
  predicate BaseOk(cfg: Config) {
    cfg.base.Same(ZERO_OFFSET) ==> cfg.base == ZERO_OFFSET
  }

  /** A node whose log starts at the base and holds nothing yet. */
  predicate Init(cfg: Config, s: Node) {
    s == Node([], [], cfg.base, cfg.base, {}, [], {}, [], cfg.base)
  }

  /* ---------- what every step keeps ---------- */

  /** The commit index ends a prefix of the log that covers what has been handed over;
      unless its own hand-over is outstanding, that is all of it. */
  ghost predicate CommitOk(cfg: Config, s: Node) {
    exists m :: |s.handed| <= m <= |s.log| && s.committed == OffsetBefore(cfg.base, s.log, m) && (s.committed in s.pending || m == |s.handed|)
  }

  ghost predicate PendingOk(cfg: Config, s: Node, c: LogOffset) {
    c.AtMost(s.committed) && exists m :: 0 <= m <= |s.log| && c == OffsetBefore(cfg.base, s.log, m)
  }

  /** The window holds what was handed over from entry `p` on, marked where finished,
      with an unfinished front; the applied index is the end of the part before it. */
  ghost predicate WindowAt(base: LogOffset, handed: seq<Logged>, win: seq<WinItem>, done: set<nat>, applied: LogOffset, p: nat) {
    && p + |win| == |handed| && applied == OffsetBefore(base, handed, p)
    && (forall k | 0 <= k < |win| :: win[k].offset == handed[p + k].Offset())
    && (forall k | 0 <= k < |win| :: win[k].acked <==> p + k in done)
    && (forall i | 0 <= i < p :: i in done)
    && (forall i | i in done :: i < |handed|)
    && (win != [] ==> !win[0].acked)
  }

  ghost predicate WindowOk(cfg: Config, s: Node) {
    WindowAt(cfg.base, s.handed, s.win, s.done, s.applied, AppliedCount(s))
  }

  ghost predicate Inv(cfg: Config, s: Node) {
    && WellPlaced(cfg.limit, cfg.base, s.log)
    && s.handed + s.mem == s.log
    && s.last == LastOffset(cfg.base, s.log)
    && CommitOk(cfg, s)
    && (forall c | c in s.pending :: PendingOk(cfg, s, c))
    && WindowOk(cfg, s)
  }

  /* ---------- steps ---------- */

  lemma AppendStep(cfg: Config, s: Node, term: nat, body: seq<byte>)
    requires Inv(cfg, s)
    ensures Inv(cfg, Apply(cfg, s, Append(term, body)))
  {
    var s' := Apply(cfg, s, Append(term, body));
    ProposeKeepsPlaces(cfg.limit, cfg.base, s.log, term, body);
    var m :| |s.handed| <= m <= |s.log| && s.committed == OffsetBefore(cfg.base, s.log, m) && (s.committed in s.pending || m == |s.handed|);
    assert s.committed == OffsetBefore(cfg.base, s'.log, m);
    forall c | c in s.pending
      ensures PendingOk(cfg, s', c)
    {
      var k :| 0 <= k <= |s.log| && c == OffsetBefore(cfg.base, s.log, k);
      assert c == OffsetBefore(cfg.base, s'.log, k);
    }
  }

  lemma AdvanceStep(cfg: Config, s: Node, n: nat)
    requires Inv(cfg, s) && Enabled(cfg, s, Advance(n))
    ensures Inv(cfg, Apply(cfg, s, Advance(n)))
  {
    var s' := Apply(cfg, s, Advance(n));
    var c := OffsetBefore(cfg.base, s.log, n);
    if !c.AtMost(s.committed) {
      var m :| |s.handed| <= m <= |s.log| && s.committed == OffsetBefore(cfg.base, s.log, m) && (s.committed in s.pending || m == |s.handed|);
      OffsetUnique(cfg.limit, cfg.base, s.log, n, m);
      assert CommitOk(cfg, s');
    }
  }

  /** A hand-over up to the end of the first `n` entries takes exactly those still
      waiting; a late one, whose entries have all gone, takes none. */
  lemma HandOverTakes(cfg: Config, s: Node, n: nat)
    requires WellPlaced(cfg.limit, cfg.base, s.log) && s.handed + s.mem == s.log && n <= |s.log|
    ensures
      var s' := HandOver(s, OffsetBefore(cfg.base, s.log, n));
      && s'.handed == (if n > |s.handed| then s.log[..n] else s.handed)
      && s'.handed + s'.mem == s.log
  {
    assert s.log[|s.handed|..] == s.mem;
    FindPlaced(cfg.limit, cfg.base, s.log, |s.handed|, n);
    Resplit(s.handed, s.mem, if n > |s.handed| then n - |s.handed| else 0);
  }

  lemma Resplit(a: seq<Logged>, b: seq<Logged>, k: nat)
    requires k <= |b|
    ensures a + b[..k] == (a + b)[..|a| + k] && a + b[..k] + b[k..] == a + b
    ensures k == 0 ==> a + b[..k] == a
  {
  }

  /** Entries handed over join the end of the window. */
  lemma WindowGrows(base: LogOffset, handed: seq<Logged>, win: seq<WinItem>, done: set<nat>, applied: LogOffset, p: nat, taken: seq<Logged>)
    requires WindowAt(base, handed, win, done, applied, p)
    ensures WindowAt(base, handed + taken, win + Waiting(taken), done, applied, p)
  {
  }

  lemma ScheduleCommit(cfg: Config, s: Node, s': Node, n: nat)
    requires Inv(cfg, s) && n <= |s.log| && OffsetBefore(cfg.base, s.log, n).AtMost(s.committed)
    requires s'.log == s.log && s'.committed == s.committed && s'.pending == s.pending - {OffsetBefore(cfg.base, s.log, n)}
    requires s'.handed == if n > |s.handed| then s.log[..n] else s.handed
    ensures CommitOk(cfg, s')
    ensures forall c | c in s'.pending :: PendingOk(cfg, s', c)
  {
    var m :| |s.handed| <= m <= |s.log| && s.committed == OffsetBefore(cfg.base, s.log, m) && (s.committed in s.pending || m == |s.handed|);
    OffsetUnique(cfg.limit, cfg.base, s.log, n, m);
    forall c | c in s'.pending
      ensures PendingOk(cfg, s', c)
    {
      assert PendingOk(cfg, s, c);
    }
  }

  lemma ScheduleStep(cfg: Config, s: Node, c: LogOffset)
    requires Inv(cfg, s) && Enabled(cfg, s, Schedule(c))
    ensures Inv(cfg, Apply(cfg, s, Schedule(c)))
  {
    var s' := HandOver(s, c);
    assert PendingOk(cfg, s, c);
    var n :| 0 <= n <= |s.log| && c == OffsetBefore(cfg.base, s.log, n);
    HandOverTakes(cfg, s, n);
    ScheduleCommit(cfg, s, s', n);
    WindowGrows(cfg.base, s.handed, s.win, s.done, s.applied, AppliedCount(s), s.mem[..Find(s.mem, c) + 1]);
    assert AppliedCount(s') == AppliedCount(s);
  }

  /** The entry that finishes is found in the window, and only it is marked. */
  lemma FinishMarks(cfg: Config, s: Node, i: nat)
    requires WellPlaced(cfg.limit, cfg.base, s.handed) && WindowOk(cfg, s)
    requires i < |s.handed| && i !in s.done
    ensures
      var k, o := i - AppliedCount(s), s.handed[i].Offset();
      0 <= k < |s.win| && RangeFound(s.win, o, o) && Acknowledged(s.win, o, o) == Marked(s.win, k, k)
  {
    var p, o := AppliedCount(s), s.handed[i].Offset();
    forall k | 0 <= k < |s.win|
      ensures s.win[k].offset.Same(o) <==> k == i - p
    {
      assert s.win[k].offset == OffsetBefore(cfg.base, s.handed, p + k + 1);
      assert o == OffsetBefore(cfg.base, s.handed, i + 1);
      OffsetUnique(cfg.limit, cfg.base, s.handed, p + k + 1, i + 1);
    }
    var last := FirstIndexOf(s.win, o);
    assert s.win[i - p].offset.Same(o);
    assert last == i - p;
    assert s.win[..last + 1][last] == s.win[last];
  }

  lemma FinishStep(cfg: Config, s: Node, i: nat)
    requires Inv(cfg, s) && Enabled(cfg, s, Finish(i))
    ensures Inv(cfg, Apply(cfg, s, Finish(i)))
  {
    PrefixPlaced(cfg.limit, cfg.base, s.log, |s.handed|);
    assert s.log[..|s.handed|] == s.handed;
    FinishWindow(cfg, s, i, Apply(cfg, s, Finish(i)));
  }

  lemma FinishWindow(cfg: Config, s: Node, i: nat, s': Node)
    requires WellPlaced(cfg.limit, cfg.base, s.handed) && WindowOk(cfg, s) && i < |s.handed| && i !in s.done
    requires s'.handed == s.handed && s'.done == s.done + {i} && (s'.win, s'.applied) == Finished(s.win, s.applied, s.handed[i].Offset())
    ensures WindowOk(cfg, s')
  {
    FinishMarks(cfg, s, i);
    var p := AppliedCount(s);
    var marked := Marked(s.win, i - p, i - p);
    FinishedIs(s.win, s.applied, s.handed[i].Offset(), marked);
    FinishedWindow(cfg, s.handed, s.win, s.done, s.applied, p, i, AckedFront(marked), s'.win, s'.applied);
    WindowFrom(cfg, s', p + AckedFront(marked));
  }

  lemma WindowFrom(cfg: Config, s: Node, p: nat)
    requires WindowAt(cfg.base, s.handed, s.win, s.done, s.applied, p)
    ensures WindowOk(cfg, s)
  {
  }

  lemma FinishedIs(win: seq<WinItem>, applied: LogOffset, o: LogOffset, marked: seq<WinItem>)
    requires RangeFound(win, o, o) && Acknowledged(win, o, o) == marked
    ensures
      var n := AckedFront(marked);
      Finished(win, applied, o) == (marked[n..], if n > 0 && applied.Less(marked[n - 1].offset) then marked[n - 1].offset else applied)
  {
  }

  lemma FinishedWindow(cfg: Config, handed: seq<Logged>, win: seq<WinItem>, done: set<nat>, applied: LogOffset, p: nat, i: nat, n: nat,
                       win': seq<WinItem>, applied': LogOffset)
    requires WellPlaced(cfg.limit, cfg.base, handed) && WindowAt(cfg.base, handed, win, done, applied, p)
    requires p <= i < |handed| && n == AckedFront(Marked(win, i - p, i - p))
    requires
      var marked := Marked(win, i - p, i - p);
      win' == marked[n..] && applied' == if n > 0 && applied.Less(marked[n - 1].offset) then marked[n - 1].offset else applied
    ensures WindowAt(cfg.base, handed, win', done + {i}, applied', p + n)
  {
    var marked := Marked(win, i - p, i - p);
    if n > 0 {
      assert marked[n - 1].offset == win[n - 1].offset == OffsetBefore(cfg.base, handed, p + n);
      OffsetsIncrease(cfg.limit, cfg.base, handed, p, p + n);
    }
    forall k | 0 <= k < |win| - n
      ensures marked[n..][k].offset == handed[p + n + k].Offset()
      ensures marked[n..][k].acked <==> p + n + k in done + {i}
    {
      assert marked[n..][k] == marked[n + k];
      assert win[n + k].offset == handed[p + (n + k)].Offset();
    }
    forall j | 0 <= j < p + n
      ensures j in done + {i}
    {
      assert j >= p ==> marked[j - p].acked;
    }
  }

  /** Cutting back leaves the first `n` entries in both logs, even while hand-overs are
      outstanding. */
  lemma CutBackKeeps(cfg: Config, s: Node, n: nat)
    requires Inv(cfg, s) && Enabled(cfg, s, Truncate(n))
    ensures |s.handed| <= n
    ensures CutBack(s, OffsetBefore(cfg.base, s.log, n), n)
         == s.(log := s.log[..n], mem := s.mem[..n - |s.handed|], last := LastOffset(cfg.base, s.log[..n]))
  {
    var m :| |s.handed| <= m <= |s.log| && s.committed == OffsetBefore(cfg.base, s.log, m) && (s.committed in s.pending || m == |s.handed|);
    CutPlaces(cfg, s.log, s.handed, s.mem, m, n);
    assert s.log[..n] == s.handed + s.mem[..n - |s.handed|];
  }

  /** Where the commit index, after `m` entries, and the end of the first `n` are found. */
  lemma CutPlaces(cfg: Config, log: seq<Logged>, handed: seq<Logged>, mem: seq<Logged>, m: nat, n: nat)
    requires WellPlaced(cfg.limit, cfg.base, log) && handed + mem == log && |handed| <= m <= |log| && n <= |log|
    requires OffsetBefore(cfg.base, log, m).AtMost(OffsetBefore(cfg.base, log, n))
    ensures m <= n && (OffsetBefore(cfg.base, log, n).l.index == OffsetBefore(cfg.base, log, m).l.index <==> m == n)
    ensures Find(mem, OffsetBefore(cfg.base, log, m)) == if m > |handed| then m - 1 - |handed| else -1
    ensures Find(mem, OffsetBefore(cfg.base, log, n)) == if n > |handed| then n - 1 - |handed| else -1
  {
    OffsetUnique(cfg.limit, cfg.base, log, m, n);
    OffsetsIncrease(cfg.limit, cfg.base, log, 0, m);
    OffsetsIncrease(cfg.limit, cfg.base, log, 0, n);
    assert log[|handed|..] == mem;
    FindPlaced(cfg.limit, cfg.base, log, |handed|, m);
    FindPlaced(cfg.limit, cfg.base, log, |handed|, n);
  }

  /** What is committed or pending lies in the part that is kept. */
  lemma CutBackCommits(cfg: Config, s: Node, s': Node, n: nat)
    requires WellPlaced(cfg.limit, cfg.base, s.log) && CommitOk(cfg, s) && n <= |s.log|
    requires s.committed.AtMost(OffsetBefore(cfg.base, s.log, n))
    requires forall c | c in s.pending :: PendingOk(cfg, s, c)
    requires s' == s.(log := s.log[..n], mem := s'.mem, last := s'.last)
    ensures CommitOk(cfg, s')
    ensures forall c | c in s'.pending :: PendingOk(cfg, s', c)
  {
    var m :| |s.handed| <= m <= |s.log| && s.committed == OffsetBefore(cfg.base, s.log, m) && (s.committed in s.pending || m == |s.handed|);
    OffsetUnique(cfg.limit, cfg.base, s.log, m, n);
    assert s'.committed == OffsetBefore(cfg.base, s'.log, m);
    forall c | c in s'.pending
      ensures PendingOk(cfg, s', c)
    {
      assert PendingOk(cfg, s, c);
      var k :| 0 <= k <= |s.log| && c == OffsetBefore(cfg.base, s.log, k);
      OffsetUnique(cfg.limit, cfg.base, s.log, k, m);
      assert c == OffsetBefore(cfg.base, s'.log, k);
    }
  }

  lemma TruncateStep(cfg: Config, s: Node, n: nat)
    requires Inv(cfg, s) && Enabled(cfg, s, Truncate(n))
    ensures Inv(cfg, Apply(cfg, s, Truncate(n)))
  {
    CutBackKeeps(cfg, s, n);
    PrefixPlaced(cfg.limit, cfg.base, s.log, n);
    assert s.log[..n] == s.handed + s.mem[..n - |s.handed|];
    CutBackCommits(cfg, s, Apply(cfg, s, Truncate(n)), n);
  }

  lemma RestartStep(cfg: Config, s: Node)
    requires Inv(cfg, s) && Enabled(cfg, s, Restart)
    requires BaseOk(cfg)
    ensures Inv(cfg, Apply(cfg, s, Restart))
  {
    var s', p := Reload(cfg, s), AppliedCount(s);
    assert s.log[..p] == s.handed[..p];
    assert s'.applied == OffsetBefore(cfg.base, s.log, p) == OffsetBefore(cfg.base, s.log[..p], p);
  }

  lemma StepKeepsInv(cfg: Config, s: Node, step: Step)
    requires Inv(cfg, s) && Enabled(cfg, s, step)
    requires BaseOk(cfg)
    ensures Inv(cfg, Apply(cfg, s, step))
  {
    match step
    case Append(term, body) => AppendStep(cfg, s, term, body);
    case Advance(n) => AdvanceStep(cfg, s, n);
    case Schedule(c) => ScheduleStep(cfg, s, c);
    case Finish(i) => FinishStep(cfg, s, i);
    case Truncate(n) => TruncateStep(cfg, s, n);
    case Restart => RestartStep(cfg, s);
  }

  /* ---------- runs ---------- */

  predicate Possible(cfg: Config, s: Node, steps: seq<Step>)
    decreases |steps|
  {
    steps == [] || (Enabled(cfg, s, steps[0]) && Possible(cfg, Apply(cfg, s, steps[0]), steps[1..]))
  }

  function After(cfg: Config, s: Node, steps: seq<Step>): Node
    requires Possible(cfg, s, steps)
    decreases |steps|
  {
    if steps == [] then s else After(cfg, Apply(cfg, s, steps[0]), steps[1..])
  }

  lemma {:induction false} RunKeepsInv(cfg: Config, s: Node, steps: seq<Step>)
    requires BaseOk(cfg) && Inv(cfg, s) && Possible(cfg, s, steps)
    ensures Inv(cfg, After(cfg, s, steps))
    decreases |steps|
  {
    if steps != [] {
      StepKeepsInv(cfg, s, steps[0]);
      RunKeepsInv(cfg, Apply(cfg, s, steps[0]), steps[1..]);
    }
  }

  /** The first `n` entries are committed; what was handed over is the first of them, in
      order and each once, and all of them when no hand-over is outstanding. */
  ghost predicate Applies(cfg: Config, s: Node, n: nat) {
    && n <= |s.log| && s.committed == OffsetBefore(cfg.base, s.log, n)
    && s.handed <= s.log[..n] && s.handed + s.mem == s.log
    && (s.pending == {} ==> s.handed == s.log[..n])
  }

  /** In every run the workers are given the committed prefix of the log, without gaps
      or repeats and never more than it. */
  lemma AppliesCommittedPrefix(cfg: Config, s0: Node, steps: seq<Step>)
    requires BaseOk(cfg) && Init(cfg, s0) && Possible(cfg, s0, steps)
    ensures exists n :: Applies(cfg, After(cfg, s0, steps), n)
  {
    assert s0.committed == OffsetBefore(cfg.base, s0.log, 0);
    RunKeepsInv(cfg, s0, steps);
    var s := After(cfg, s0, steps);
    var n :| |s.handed| <= n <= |s.log| && s.committed == OffsetBefore(cfg.base, s.log, n) && (s.committed in s.pending || n == |s.handed|);
    assert Applies(cfg, s, n);
  }

  lemma HandedGrows(cfg: Config, s: Node, step: Step)
    requires Enabled(cfg, s, step) && !step.Restart?
    ensures s.handed <= Apply(cfg, s, step).handed
  {
  }

  /** Without a restart nothing is handed over a second time or in another order. */
  lemma {:induction false} HandedOnce(cfg: Config, s: Node, steps: seq<Step>)
    requires Possible(cfg, s, steps) && Restart !in steps
    ensures s.handed <= After(cfg, s, steps).handed
    decreases |steps|
  {
    if steps != [] {
      HandedGrows(cfg, s, steps[0]);
      HandedOnce(cfg, Apply(cfg, s, steps[0]), steps[1..]);
    }
  }

  /** Everything up to the applied index has finished, so a restart, which continues
      from there, skips no entry. */
  lemma AppliedIndexSafe(cfg: Config, s0: Node, steps: seq<Step>)
    requires BaseOk(cfg) && Init(cfg, s0) && Possible(cfg, s0, steps)
    ensures
      var s := After(cfg, s0, steps);
      var p := AppliedCount(s);
      && p <= |s.handed| && s.handed <= s.log && s.applied == OffsetBefore(cfg.base, s.log, p)
      && forall i | 0 <= i < p :: i in s.done
  {
    assert s0.committed == OffsetBefore(cfg.base, s0.log, 0);
    RunKeepsInv(cfg, s0, steps);
  }

  /** A restart keeps every entry exactly when there is an applied index to load the
      memory log from, or nothing to load. */
  lemma RestartComplete(cfg: Config, s: Node)
    requires BaseOk(cfg) && Inv(cfg, s)
    ensures Reload(cfg, s).handed + Reload(cfg, s).mem == s.log <==> !s.applied.Same(ZERO_OFFSET) || s.log == []
  {
    var p := AppliedCount(s);
    assert s.log[..p] + s.log[p..] == s.log;
  }

  /** Cutting back to the commit index keeps every committed entry exactly when none of
      them still waits to be handed over. */
  lemma CutBackComplete(cfg: Config, s: Node, n: nat)
    requires Inv(cfg, s) && |s.handed| <= n <= |s.log| && s.committed == OffsetBefore(cfg.base, s.log, n)
    ensures
      var s' := CutBack(s, s.committed, n);
      s'.handed + s'.mem == s.log[..n] <==> Find(s.mem, s.committed) < 0
  {
    assert s.log[|s.handed|..] == s.mem;
    FindPlaced(cfg.limit, cfg.base, s.log, |s.handed|, n);
    assert |s.log[..n]| == n && s.handed + [] == s.handed;
    assert n == |s.handed| ==> s.log[..n] == s.handed;
  }

  /** A log that starts at zero and has one entry: a restart before anything was applied
      loads nothing, and the entry is never handed over. */
  lemma RestartLoses(cfg: Config, s0: Node, term: nat, body: seq<byte>)
    requires cfg.base == ZERO_OFFSET && Init(cfg, s0)
    ensures
      var s := Apply(cfg, s0, Append(term, body));
      Reload(cfg, s).handed + Reload(cfg, s).mem == [] && |s.log| == 1
  {
  }

  /** One entry, committed and not yet handed over: cutting back to it drops it from memory. */
  lemma CutBackLoses(cfg: Config, s0: Node, term: nat, body: seq<byte>)
    requires Init(cfg, s0)
    ensures
      var s := Apply(cfg, Apply(cfg, s0, Append(term, body)), Advance(1));
      && |s.log| == 1 && s.committed == OffsetBefore(cfg.base, s.log, 1)
      && CutBack(s, s.committed, 1).handed + CutBack(s, s.committed, 1).mem == []
  {
    var s := Apply(cfg, s0, Append(term, body));
    ProposeKeepsPlaces(cfg.limit, cfg.base, [], term, body);
    OffsetsIncrease(cfg.limit, cfg.base, s.log, 0, 1);
  }

  /* ---------- everything can be applied ---------- */

  /** An advance takes the commit index to the end of the first `n` entries, unless it is
      there or past it already, and its hand-over is then outstanding. */
  lemma AdvanceMoves(cfg: Config, s: Node, n: nat)
    requires n <= |s.log|
    ensures
      var s', c := Apply(cfg, s, Advance(n)), OffsetBefore(cfg.base, s.log, n);
      && c.AtMost(s'.committed) && s.committed.AtMost(s'.committed)
      && (s'.committed == s.committed || (s'.committed == c && c in s'.pending))
      && s'.log == s.log && s'.handed == s.handed && s.pending <= s'.pending
  {
  }

  lemma {:induction false} AfterConcat(cfg: Config, s: Node, a: seq<Step>, b: seq<Step>)
    requires Possible(cfg, s, a) && Possible(cfg, After(cfg, s, a), b)
    ensures Possible(cfg, s, a + b) && After(cfg, s, a + b) == After(cfg, After(cfg, s, a), b)
    decreases |a|
  {
    if a == [] {
      assert a + b == b;
    } else {
      assert (a + b)[0] == a[0] && (a + b)[1..] == a[1..] + b;
      AfterConcat(cfg, Apply(cfg, s, a[0]), a[1..], b);
    }
  }

  lemma OneStep(cfg: Config, s: Node, step: Step)
    requires Enabled(cfg, s, step)
    ensures Possible(cfg, s, [step]) && After(cfg, s, [step]) == Apply(cfg, s, step)
  {
    assert [step][1..] == [];
  }

  /** With the whole log committed and its hand-over outstanding, that hand-over completes it. */
  lemma HandsOverRest(cfg: Config, s: Node) returns (more: seq<Step>)
    requires BaseOk(cfg) && Inv(cfg, s) && s.committed == LastOffset(cfg.base, s.log)
    ensures Possible(cfg, s, more)
    ensures After(cfg, s, more).handed == s.log == After(cfg, s, more).log
  {
    var m :| |s.handed| <= m <= |s.log| && s.committed == OffsetBefore(cfg.base, s.log, m) && (s.committed in s.pending || m == |s.handed|);
    OffsetUnique(cfg.limit, cfg.base, s.log, m, |s.log|);
    if |s.handed| == |s.log| {
      assert s.handed == s.log;
      more := [];
    } else {
      HandOverTakes(cfg, s, |s.log|);
      assert s.log[..|s.log|] == s.log;
      OneStep(cfg, s, Schedule(s.committed));
      more := [Schedule(s.committed)];
    }
  }

  lemma HandsOverAll(cfg: Config, s: Node) returns (more: seq<Step>)
    requires BaseOk(cfg) && Inv(cfg, s)
    ensures Possible(cfg, s, more)
    ensures After(cfg, s, more).handed == s.log == After(cfg, s, more).log
  {
    var step := Advance(|s.log|);
    var s' := Apply(cfg, s, step);
    AdvanceMoves(cfg, s, |s.log|);
    StepKeepsInv(cfg, s, step);
    OneStep(cfg, s, step);
    var m :| |s'.handed| <= m <= |s'.log| && s'.committed == OffsetBefore(cfg.base, s'.log, m) && (s'.committed in s'.pending || m == |s'.handed|);
    OffsetUnique(cfg.limit, cfg.base, s'.log, |s'.log|, m);
    var rest := HandsOverRest(cfg, s');
    AfterConcat(cfg, s, [step], rest);
    more := [step] + rest;
  }

  lemma {:induction false} FinishesFrom(cfg: Config, s: Node, k: nat) returns (more: seq<Step>)
    requires BaseOk(cfg) && Inv(cfg, s) && k <= |s.handed| && forall i | 0 <= i < k :: i in s.done
    ensures Possible(cfg, s, more)
    ensures
      var s' := After(cfg, s, more);
      s'.handed == s.handed && s'.log == s.log && forall i | 0 <= i < |s.handed| :: i in s'.done
    decreases |s.handed| - k
  {
    if k == |s.handed| {
      more := [];
    } else if k in s.done {
      more := FinishesFrom(cfg, s, k + 1);
    } else {
      var step := Finish(k);
      StepKeepsInv(cfg, s, step);
      OneStep(cfg, s, step);
      var rest := FinishesFrom(cfg, Apply(cfg, s, step), k + 1);
      AfterConcat(cfg, s, [step], rest);
      more := [step] + rest;
    }
  }

  /** Wherever a run stands, it can go on until the whole log is committed, handed over
      and finished, and then the applied index is the end of the log. */
  lemma EverythingApplies(cfg: Config, s0: Node, steps: seq<Step>) returns (more: seq<Step>)
    requires BaseOk(cfg) && Init(cfg, s0) && Possible(cfg, s0, steps)
    ensures Possible(cfg, s0, steps + more)
    ensures
      var s, s' := After(cfg, s0, steps), After(cfg, s0, steps + more);
      s'.log == s.log && s'.handed == s.log && s'.applied == LastOffset(cfg.base, s.log)
  {
    assert s0.committed == OffsetBefore(cfg.base, s0.log, 0);
    RunKeepsInv(cfg, s0, steps);
    var s := After(cfg, s0, steps);
    var first := HandsOverAll(cfg, s);
    RunKeepsInv(cfg, s, first);
    var rest := FinishesFrom(cfg, After(cfg, s, first), 0);
    AfterConcat(cfg, s, first, rest);
    more := first + rest;
    AfterConcat(cfg, s0, steps, more);
    RunKeepsInv(cfg, s0, steps + more);
    AllDone(cfg, After(cfg, s0, steps + more));
  }

  lemma AllDone(cfg: Config, s: Node)
    requires WindowOk(cfg, s) && forall i | 0 <= i < |s.handed| :: i in s.done
    ensures s.applied == LastOffset(cfg.base, s.handed)
  {
    NoneOpen(s.win, s.handed, s.done, AppliedCount(s));
  }

  lemma NoneOpen(win: seq<WinItem>, handed: seq<Logged>, done: set<nat>, p: nat)
    requires p + |win| == |handed| && forall i | 0 <= i < |handed| :: i in done
    requires forall k | 0 <= k < |win| :: win[k].acked <==> p + k in done
    ensures win != [] ==> win[0].acked
  {
    assert win != [] ==> p + 0 in done;
  }
}
