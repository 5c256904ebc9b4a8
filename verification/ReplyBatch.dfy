/**
 Replies to a pipeline of commands. Each command is answered either at once by the
 thread that runs the pipeline or later by a background task; a counter of open
 answers decides who writes the replies. A step is one access to shared memory.
 */
module ReplyBatch {
  import opened Options

  /* ---------- the write ---------- */

  function Concat(replies: seq<string>): string {
    if replies == [] then "" else Concat(replies[..|replies| - 1]) + replies[|replies| - 1]
  }

  /** The output is the replies one after the other: reply `i` starts where the ones
      before it end. */
  lemma {:induction false} ReplyAt(replies: seq<string>, i: nat)
    requires i < |replies|
    ensures Concat([]) == ""
    ensures
      var start := |Concat(replies[..i])|;
      start + |replies[i]| <= |Concat(replies)| && Concat(replies)[start..start + |replies[i]|] == replies[i]
    ensures |Concat(replies[..i + 1])| == |Concat(replies[..i])| + |replies[i]|
  {
    var n := |replies| - 1;
    assert replies[..i + 1][..i] == replies[..i];
    if i < n {
      ReplyAt(replies[..n], i);
      assert replies[..n][..i] == replies[..i];
    } else {
      assert replies[..n] == replies[..i];
    }
  }

  class ClientConn {
    var respNum: int
    var respArray: seq<string>
    var output: string

    constructor ()
      ensures respNum == 0 && respArray == [] && output == ""
    {
      respNum, respArray, output := 0, [], "";
    }

    /** Whoever finds the counter at zero takes it to -1 and writes all replies in order. */
    method TryWriteResp() returns (won: bool)
      modifies this
      ensures won <==> old(respNum) == 0
      ensures won ==> respNum == -1 && respArray == [] && output == old(output) + Concat(old(respArray))
      ensures !won ==> unchanged(this)
    {
      won := respNum == 0;
      if won {
        respNum := -1;
        var i := 0;
        while i < |respArray|
          invariant 0 <= i <= |respArray| && respArray == old(respArray) && respNum == -1
          invariant output == old(output) + Concat(respArray[..i])
        {
          assert respArray[..i + 1][..i] == respArray[..i];
          output := output + respArray[i];
          i := i + 1;
        }
        assert respArray[..i] == respArray;
        respArray := [];
      }
    }
  }

  /* ---------- threads ---------- */

  /** What the pipeline thread is doing: it runs a command, has handed it over, or has
      answered it and is about to count the answer. */
  datatype Pc = Idle | Running | Handed | Answered | Finished

  type Bag = multiset<nat>

  datatype State = State(
    n: nat,                       // commands in the pipeline
    next: nat,                    // commands begun by the pipeline thread
    pc: Pc,
    resps: seq<Option<string>>,   // the reply of each command begun
    start: nat,                   // replies before it are no longer in the array
    num: int,                     // the shared counter
    queued: Bag,                  // executions waiting in the background
    lost: Bag,                    // ended in the background without an answer
    filled: Bag,                  // answered in the background, not yet counted
    trying: Bag,                  // counted, about to try the write
    counted: Bag,                 // answers counted
    written: seq<seq<Option<string>>>)

  /** A command is handed over once for each partition it writes to, and it is answered at
      once as well if it has failed by then. */
  datatype Step =
    | Push
    | Answer(reply: string)
    | Count
    | HandOver
    | Leave
    | Fill(i: nat, reply: string)
    | Lose(i: nat)
    | CountTask(i: nat)
    | TryTask(i: nat)
    | TryBatch

  predicate Enabled(s: State, step: Step) {
    match step
    case Push => s.pc == Idle && s.next < s.n
    case Answer(_) => (s.pc == Running || s.pc == Handed) && 0 < s.next <= |s.resps|
    case Count => s.pc == Answered && s.next > 0
    case HandOver => (s.pc == Running || s.pc == Handed) && s.next > 0
    case Leave => s.pc == Handed
    case Fill(i, _) => i in s.queued && i < |s.resps|
    case Lose(i) => i in s.queued
    case CountTask(i) => i in s.filled
    case TryTask(i) => i in s.trying && s.start <= |s.resps|
    case TryBatch => s.pc == Idle && s.next == s.n && s.start <= |s.resps|
  }

  function TryWrite(s: State): State
    requires s.start <= |s.resps|
  {
    if s.num == 0 then s.(num := -1, written := s.written + [s.resps[s.start..]], start := |s.resps|) else s
  }

  function Apply(s: State, step: Step): State
    requires Enabled(s, step)
  {
    match step
    case Push => s.(next := s.next + 1, pc := Running, resps := s.resps + [None])
    case Answer(reply) => s.(pc := Answered, resps := s.resps[s.next - 1 := Some(reply)])
    case Count => s.(pc := Idle, num := s.num - 1, counted := s.counted + multiset{s.next - 1})
    case HandOver => s.(pc := Handed, queued := s.queued + multiset{s.next - 1})
    case Leave => s.(pc := Idle)
    case Fill(i, reply) =>
      s.(queued := s.queued - multiset{i}, filled := s.filled + multiset{i}, resps := s.resps[i := Some(reply)])
    case Lose(i) => s.(queued := s.queued - multiset{i}, lost := s.lost + multiset{i})
    case CountTask(i) =>
      s.(filled := s.filled - multiset{i}, trying := s.trying + multiset{i}, num := s.num - 1, counted := s.counted + multiset{i})
    case TryTask(i) => TryWrite(s).(trying := s.trying - multiset{i})
    case TryBatch => TryWrite(s).(pc := Finished)
  }

  const NONE: Bag := multiset{}

  predicate Init(s: State) {
    s == State(s.n, 0, Idle, [], 0, s.n, NONE, NONE, NONE, NONE, NONE, [])
  }

  /** How often command `i` is answered: what waits, was lost, or has been answered. */
  function Answers(s: State, i: nat): nat {
    s.queued[i] + s.lost[i] + s.filled[i] + s.counted[i] + if s.pc == Answered && i + 1 == s.next then 1 else 0
  }

  /** No command is answered twice: its keys are in one partition, and none that was
      handed over is answered at once too. */
  ghost predicate Single(s: State) {
    forall i: nat :: Answers(s, i) <= 1
  }

  /* ---------- what every step keeps, in every run ---------- */

  /** The counter falls with every answer counted, and the write takes it past zero. */
  ghost predicate Counts(s: State) {
    && |s.resps| == s.next <= s.n && s.start <= s.next
    && (s.pc == Running || s.pc == Handed || s.pc == Answered ==> s.next > 0) && (s.pc == Finished ==> s.next == s.n)
    && s.num == s.n - |s.counted| - |s.written|
    && |s.written| <= 1 && (s.written == [] ==> s.start == 0) && (s.written != [] ==> |s.counted| >= s.n)
    && (forall i: nat | i >= s.next :: Answers(s, i) == 0)
  }

  lemma StepCounts(s: State, step: Step)
    requires Counts(s) && Enabled(s, step)
    ensures Counts(Apply(s, step)) && Apply(s, step).n == s.n
  {
    var s' := Apply(s, step);
    assert |s'.counted| == |s.counted| + if step.Count? || step.CountTask? then 1 else 0;
    forall i: nat | i >= s'.next
      ensures Answers(s', i) == 0
    {
      assert Answers(s, i) == 0;
    }
  }

  /** Once a command is answered twice it stays so. */
  lemma StepAnswers(s: State, step: Step, i: nat)
    requires Enabled(s, step)
    ensures Answers(s, i) <= Answers(Apply(s, step), i)
  {
    var s' := Apply(s, step);
    if step.TryTask? || step.TryBatch? || step.Push? || step.Leave? {
      assert s'.queued == s.queued && s'.lost == s.lost && s'.filled == s.filled && s'.counted == s.counted;
    }
  }

  /* ---------- runs in which no command is answered twice ---------- */

  /** Commands the pipeline thread has answered or handed over. */
  function Begun(s: State): int {
    if s.pc == Running then s.next - 1 else s.next
  }

  predicate OnceAt(s: State, i: nat) {
    Answers(s, i) == if i < Begun(s) then 1 else 0
  }

  ghost predicate Once(s: State) {
    forall i: nat :: OnceAt(s, i)
  }

  predicate HasReply(s: State, i: nat) {
    i < |s.resps| && s.resps[i].Some?
  }

  /** Before the write: what is filled or counted has its reply, and at zero someone is
      still to try the write. */
  ghost predicate Open(s: State) {
    && s.written == []
    && (forall i | i in s.filled || i in s.counted :: HasReply(s, i))
    && (s.pc == Answered && s.next > 0 ==> HasReply(s, s.next - 1))
    && s.trying <= s.counted
    && (s.num == 0 ==> s.trying != NONE || s.pc != Finished)
  }

  /** After it: every reply has been written, in the order of the commands. */
  ghost predicate Closed(s: State) {
    && s.written == [s.resps] && s.next == s.n && (forall i: nat | i < s.n :: HasReply(s, i))
    && s.pc != Running && s.pc != Answered
    && s.queued == NONE && s.lost == NONE && s.filled == NONE
  }

  ghost predicate Inv(s: State) {
    Counts(s) && Once(s) && (Open(s) || Closed(s))
  }

  lemma {:induction false} FullCount(c: Bag, n: nat)
    requires forall i: nat :: c[i] <= if i < n then 1 else 0
    ensures |c| <= n && (|c| == n ==> forall i: nat | i < n :: i in c)
  {
    if n == 0 {
      assert c == NONE;
    } else {
      FullCount(c[n - 1 := 0], n - 1);
      assert |c| == |c[n - 1 := 0]| + c[n - 1];
      forall i: nat | i < n && |c| == n
        ensures i in c
      {
        assert i < n - 1 ==> i in c[n - 1 := 0];
      }
    }
  }

  /** The thread that finds the counter at zero finds every reply in its place. */
  lemma TryKeeps(s: State, s': State)
    requires Counts(s) && Once(s) && Open(s) && s.num == 0
    requires s' == TryWrite(s)
    ensures Closed(s')
  {
    AllInside(s);
    FullCount(s.counted, s.n);
    assert s.resps[0..] == s.resps;
    forall i: nat | i < s.n
      ensures HasReply(s, i) && i < Begun(s) && Answers(s, i) == 1
    {
      assert i in s.counted && OnceAt(s, i);
    }
    if s.n > 0 {
      assert HasReply(s, s.n - 1);
    }
    AllCountedIsAll(s);
    forall i: nat | i < s'.n
      ensures HasReply(s', i)
    {
      assert HasReply(s, i);
    }
  }

  lemma AllInside(s: State)
    requires Counts(s) && Once(s)
    ensures forall i: nat :: s.counted[i] <= if i < s.n then 1 else 0
  {
    forall i: nat
      ensures s.counted[i] <= if i < s.n then 1 else 0
    {
      assert OnceAt(s, i);
    }
  }

  /** When every command is counted, nothing waits, is lost or is filled. */
  lemma AllCountedIsAll(s: State)
    requires Counts(s) && Once(s) && forall i: nat | i < s.n :: i in s.counted
    ensures s.queued == NONE && s.lost == NONE && s.filled == NONE && s.pc != Answered
  {
    forall i: nat
      ensures s.queued[i] == 0 && s.lost[i] == 0 && s.filled[i] == 0
    {
      assert OnceAt(s, i);
    }
    if s.next > 0 {
      assert s.next - 1 in s.counted;
      assert OnceAt(s, s.next - 1);
      AnsweredCounts(s, s.next - 1);
    }
  }

  lemma AnsweredCounts(s: State, i: nat)
    ensures s.pc == Answered && i + 1 == s.next ==> Answers(s, i) >= s.counted[i] + 1
  {
  }

  lemma AnswersAgain(s: State, step: Step)
    requires Enabled(s, step) && s.next > 0 && (step.Answer? || step.HandOver?)
    ensures Answers(Apply(s, step), s.next - 1) == Answers(s, s.next - 1) + 1
  {
  }

  lemma StepOnceAt(s: State, step: Step, i: nat)
    requires Enabled(s, step) && OnceAt(s, i) && Answers(Apply(s, step), i) <= 1
    requires s.pc == Running || s.pc == Handed || s.pc == Answered ==> s.next > 0
    ensures OnceAt(Apply(s, step), i)
  {
    var s' := Apply(s, step);
    if step.TryTask? || step.TryBatch? || step.Push? || step.Leave? {
      assert s'.queued == s.queued && s'.lost == s.lost && s'.filled == s.filled && s'.counted == s.counted;
    }
  }

  lemma StepOnce(s: State, step: Step)
    requires Counts(s) && Once(s) && Enabled(s, step) && Single(Apply(s, step))
    ensures Once(Apply(s, step))
  {
    forall i: nat
      ensures OnceAt(Apply(s, step), i)
    {
      assert OnceAt(s, i);
      assert Answers(Apply(s, step), i) <= 1;
      StepOnceAt(s, step, i);
    }
  }

  lemma PipelineStep(s: State, step: Step)
    requires Counts(s) && Once(s) && Open(s) && Enabled(s, step)
    requires step.Push? || step.Answer? || step.Count? || step.HandOver? || step.Leave?
    ensures Open(Apply(s, step))
  {
    var s' := Apply(s, step);
    forall i | i in s'.filled || i in s'.counted
      ensures HasReply(s', i)
    {
      assert i in s.filled || i in s.counted ==> HasReply(s, i);
    }
  }

  lemma TaskStep(s: State, step: Step)
    requires Counts(s) && Open(s) && Enabled(s, step)
    requires step.Fill? || step.Lose? || step.CountTask?
    ensures Open(Apply(s, step))
  {
    var s' := Apply(s, step);
    forall i | i in s'.filled || i in s'.counted
      ensures HasReply(s', i)
    {
      assert i in s.filled || i in s.counted ==> HasReply(s, i);
    }
  }

  lemma TryStep(s: State, step: Step)
    requires Counts(s) && Once(s) && Open(s) && Enabled(s, step)
    requires step.TryTask? || step.TryBatch?
    ensures Open(Apply(s, step)) || Closed(Apply(s, step))
  {
    if s.num == 0 {
      TryKeeps(s, TryWrite(s));
      ClosedOn(TryWrite(s), Apply(s, step));
    } else {
      OpenOn(s, Apply(s, step));
    }
  }

  lemma ClosedOn(s: State, s': State)
    requires Closed(s) && s' == s.(trying := s'.trying, pc := s'.pc) && (s'.pc == s.pc || s'.pc == Finished)
    ensures Closed(s')
  {
    forall i: nat | i < s'.n
      ensures HasReply(s', i)
    {
      assert HasReply(s, i);
    }
  }

  lemma OpenOn(s: State, s': State)
    requires Open(s) && s.num != 0 && s' == s.(trying := s'.trying, pc := s'.pc) && (s'.pc == s.pc || s'.pc == Finished)
    requires s'.trying <= s.trying
    ensures Open(s')
  {
    forall i | i in s'.filled || i in s'.counted
      ensures HasReply(s', i)
    {
      assert HasReply(s, i);
    }
  }

  lemma ClosedStep(s: State, step: Step)
    requires Counts(s) && Once(s) && Closed(s) && Enabled(s, step) && Single(Apply(s, step))
    ensures Closed(Apply(s, step))
  {
    var s' := Apply(s, step);
    if step.Answer? || step.HandOver? {
      assert OnceAt(s, s.next - 1);
      AnswersAgain(s, step);
    }
    forall i: nat | i < s'.n
      ensures HasReply(s', i)
    {
      assert HasReply(s, i);
    }
  }

  lemma StepKeepsInv(s: State, step: Step)
    requires Inv(s) && Enabled(s, step) && Single(Apply(s, step))
    ensures Inv(Apply(s, step))
  {
    StepCounts(s, step);
    StepOnce(s, step);
    if Closed(s) {
      ClosedStep(s, step);
    } else if step.TryTask? || step.TryBatch? {
      TryStep(s, step);
    } else if step.Fill? || step.Lose? || step.CountTask? {
      TaskStep(s, step);
    } else {
      PipelineStep(s, step);
    }
  }

  /* ---------- runs ---------- */

  predicate Possible(s: State, steps: seq<Step>)
    decreases |steps|
  {
    steps == [] || (Enabled(s, steps[0]) && Possible(Apply(s, steps[0]), steps[1..]))
  }

  function After(s: State, steps: seq<Step>): State
    requires Possible(s, steps)
    decreases |steps|
  {
    if steps == [] then s else After(Apply(s, steps[0]), steps[1..])
  }

  lemma {:induction false} RunCounts(s: State, steps: seq<Step>)
    requires Counts(s) && Possible(s, steps)
    ensures Counts(After(s, steps)) && After(s, steps).n == s.n
    decreases |steps|
  {
    if steps != [] {
      StepCounts(s, steps[0]);
      RunCounts(Apply(s, steps[0]), steps[1..]);
    }
  }

  lemma {:induction false} RunAnswers(s: State, steps: seq<Step>, i: nat)
    requires Possible(s, steps)
    ensures Answers(s, i) <= Answers(After(s, steps), i)
    decreases |steps|
  {
    if steps != [] {
      StepAnswers(s, steps[0], i);
      RunAnswers(Apply(s, steps[0]), steps[1..], i);
    }
  }

  lemma SingleBefore(s: State, steps: seq<Step>)
    requires Possible(s, steps) && Single(After(s, steps))
    ensures Single(s)
  {
    forall i: nat
      ensures Answers(s, i) <= 1
    {
      RunAnswers(s, steps, i);
    }
  }

  lemma {:induction false} RunKeepsInv(s: State, steps: seq<Step>)
    requires Inv(s) && Possible(s, steps) && Single(After(s, steps))
    ensures Inv(After(s, steps)) && After(s, steps).n == s.n
    decreases |steps|
  {
    if steps != [] {
      SingleBefore(Apply(s, steps[0]), steps[1..]);
      StepKeepsInv(s, steps[0]);
      RunKeepsInv(Apply(s, steps[0]), steps[1..]);
    }
  }

  /** Nothing is left to do for any thread. */
  predicate Quiet(s: State) {
    s.pc == Finished && s.queued == NONE && s.filled == NONE && s.trying == NONE
  }

  /** In every run, whatever is answered twice or not at all, the counter is the number of
      commands less the answers counted, and there is at most one write. */
  lemma CounterExact(s0: State, steps: seq<Step>)
    requires Init(s0) && Possible(s0, steps)
    ensures
      var s := After(s0, steps);
      && s.num == s0.n - |s.counted| - |s.written|
      && |s.written| <= 1 && (s.written != [] ==> |s.counted| >= s0.n)
  {
    RunCounts(s0, steps);
  }

  /** In every run in which no command is answered twice, the write holds the reply of every
      command, in order, and none comes once a background execution has ended without an
      answer. When no thread has anything left to do, it has happened exactly if none has. */
  lemma OneWrite(s0: State, steps: seq<Step>)
    requires Init(s0) && Possible(s0, steps) && Single(After(s0, steps))
    ensures
      var s := After(s0, steps);
      && (s.written != [] ==> s.written == [s.resps] && |s.resps| == s0.n && forall i: nat | i < s0.n :: s.resps[i].Some?)
      && (s.lost != NONE ==> s.written == [])
      && (Quiet(s) ==> (|s.written| == 1 <==> s.lost == NONE))
  {
    RunKeepsInv(s0, steps);
    var s := After(s0, steps);
    if Open(s) && Quiet(s) && s.lost == NONE {
      AllCounted(s);
    }
    if Closed(s) {
      forall i: nat | i < s0.n
        ensures s.resps[i].Some?
      {
        assert HasReply(s, i);
      }
    }
  }

  lemma AllCounted(s: State)
    requires Counts(s) && Once(s) && Quiet(s) && s.lost == NONE
    ensures |s.counted| == s.n
  {
    forall i: nat
      ensures s.counted[i] == if i < s.n then 1 else 0
    {
      assert OnceAt(s, i);
    }
    CountOf(s.counted, s.n);
  }

  lemma {:induction false} CountOf(c: Bag, n: nat)
    requires forall i: nat :: c[i] == if i < n then 1 else 0
    ensures |c| == n
  {
    if n == 0 {
      assert c == NONE;
    } else {
      CountOf(c[n - 1 := 0], n - 1);
      assert |c| == |c[n - 1 := 0]| + c[n - 1];
    }
  }

  /* ---------- runs that fail ---------- */

  ghost predicate Leads(s0: State, steps: seq<Step>, s: State) {
    Possible(s0, steps) && After(s0, steps) == s
  }

  lemma {:induction false} Snoc(s0: State, steps: seq<Step>, s: State, step: Step)
    requires Leads(s0, steps, s) && Enabled(s, step)
    ensures Leads(s0, steps + [step], Apply(s, step))
    decreases |steps|
  {
    var all := steps + [step];
    if steps == [] {
      assert all[1..] == [];
    } else {
      assert all[0] == steps[0] && all[1..] == steps[1..] + [step];
      Snoc(Apply(s0, steps[0]), steps[1..], s, step);
    }
  }

  lemma Go(s0: State, steps: seq<Step>, s: State, step: Step) returns (steps': seq<Step>, s': State)
    requires Leads(s0, steps, s) && Enabled(s, step)
    ensures Leads(s0, steps', s') && s' == Apply(s, step)
  {
    Snoc(s0, steps, s, step);
    steps', s' := steps + [step], Apply(s, step);
  }

  /** The next `k` commands are answered at once. */
  lemma {:induction false} Inline(s0: State, steps: seq<Step>, s: State, k: nat) returns (steps': seq<Step>, s': State)
    requires Leads(s0, steps, s) && s.pc == Idle && s.next + k <= s.n && |s.resps| == s.next
    ensures Leads(s0, steps', s')
    ensures s' == s.(next := s.next + k, num := s.num - k, resps := s'.resps, counted := s'.counted) && |s'.resps| == s'.next
    ensures s.resps <= s'.resps && s.counted <= s'.counted
    decreases k
  {
    steps', s' := steps, s;
    if k > 0 {
      steps', s' := Go(s0, steps', s', Push);
      steps', s' := Go(s0, steps', s', Answer("OK"));
      steps', s' := Go(s0, steps', s', Count);
      steps', s' := Inline(s0, steps', s', k - 1);
    }
  }

  /** The next command is handed to one partition. */
  lemma Hand(s0: State, steps: seq<Step>, s: State) returns (steps': seq<Step>, s': State)
    requires Leads(s0, steps, s) && s.pc == Idle && s.next < s.n && |s.resps| == s.next
    ensures Leads(s0, steps', s')
    ensures s' == s.(next := s.next + 1, resps := s.resps + [None], queued := s.queued + multiset{s.next})
  {
    steps', s' := Go(s0, steps, s, Push);
    steps', s' := Go(s0, steps', s', HandOver);
    steps', s' := Go(s0, steps', s', Leave);
  }

  /** The next command is handed to two partitions. */
  lemma HandTwo(s0: State, steps: seq<Step>, s: State) returns (steps': seq<Step>, s': State)
    requires Leads(s0, steps, s) && s.pc == Idle && s.next < s.n && |s.resps| == s.next
    ensures Leads(s0, steps', s')
    ensures s' == s.(next := s.next + 1, resps := s.resps + [None], queued := s.queued + multiset{s.next} + multiset{s.next})
  {
    steps', s' := Go(s0, steps, s, Push);
    steps', s' := Go(s0, steps', s', HandOver);
    steps', s' := Go(s0, steps', s', HandOver);
    steps', s' := Go(s0, steps', s', Leave);
  }

  /** One background execution of command `i` is answered and counted. */
  lemma Execute(s0: State, steps: seq<Step>, s: State, i: nat, reply: string) returns (steps': seq<Step>, s': State)
    requires Leads(s0, steps, s) && i in s.queued && i < |s.resps|
    ensures Leads(s0, steps', s')
    ensures s' == s.(resps := s.resps[i := Some(reply)], num := s.num - 1, queued := s.queued - multiset{i},
                     trying := s.trying + multiset{i}, counted := s.counted + multiset{i})
  {
    steps', s' := Go(s0, steps, s, Fill(i, reply));
    steps', s' := Go(s0, steps', s', CountTask(i));
    assert s.filled + multiset{i} - multiset{i} == s.filled;
  }

  /** The next command is handed to two partitions; both executions are counted, and both
      are about to try the write. */
  lemma HandTwice(s0: State, steps: seq<Step>, s: State) returns (steps': seq<Step>, s': State)
    requires Leads(s0, steps, s) && s.pc == Idle && s.next < s.n && |s.resps| == s.next
    ensures Leads(s0, steps', s')
    ensures s' == s.(next := s.next + 1, resps := s.resps + [Some("2")], num := s.num - 2, trying := s'.trying, counted := s'.counted)
    ensures s'.trying == s.trying + multiset{s.next, s.next} && s'.counted == s.counted + multiset{s.next, s.next}
  {
    var i := s.next;
    steps', s' := HandTwo(s0, steps, s);
    steps', s' := Execute(s0, steps', s', i, "1");
    steps', s' := Execute(s0, steps', s', i, "2");
    assert s.queued + multiset{i} + multiset{i} - multiset{i} - multiset{i} == s.queued;
    assert s.resps + [Some("2")] == s'.resps;
    assert multiset{i} + multiset{i} == multiset{i, i};
  }

  /** For every pipeline of at least two commands: when the first is handed to two
      partitions and the last to one, the replies may be written before the last command
      has been answered. */
  lemma WrittenEarly(s0: State) returns (steps: seq<Step>)
    requires Init(s0) && s0.n >= 2
    ensures Possible(s0, steps)
    ensures
      var s := After(s0, steps);
      s.lost == NONE && !Single(s) && |s.written| == 1 && |s.written[0]| == s0.n && s.written[0][s0.n - 1] == None
  {
    var s;
    steps, s := HandTwice(s0, [], s0);
    steps, s := Inline(s0, steps, s, s0.n - 2);
    steps, s := Hand(s0, steps, s);
    steps, s := Go(s0, steps, s, TryBatch);
    assert s.written == [s.resps[0..]];
    assert Answers(s, 0) >= 2;
  }

  /** For every pipeline: when the last command is handed to two partitions, the counter
      may pass zero before anyone looks, and the replies are never written. */
  lemma NeverWritten(s0: State) returns (steps: seq<Step>)
    requires Init(s0) && s0.n >= 1
    ensures Possible(s0, steps)
    ensures
      var s := After(s0, steps);
      s.lost == NONE && !Single(s) && Quiet(s) && s.written == []
  {
    var s;
    steps, s := Inline(s0, [], s0, s0.n - 1);
    steps, s := HandTwice(s0, steps, s);
    steps, s := TryInVain(s0, steps, s, s0.n - 1);
    assert Answers(s, s0.n - 1) >= 2;
  }

  /** Two executions and the pipeline thread look at a counter below zero. */
  lemma TryInVain(s0: State, steps: seq<Step>, s: State, i: nat) returns (steps': seq<Step>, s': State)
    requires Leads(s0, steps, s) && s.pc == Idle && s.next == s.n && s.start <= |s.resps| && s.num < 0
    requires s.trying == multiset{i, i} && s.queued == s.filled == NONE
    ensures Leads(s0, steps', s') && s' == s.(pc := Finished, trying := NONE)
  {
    steps', s' := Go(s0, steps, s, TryBatch);
    steps', s' := Go(s0, steps', s', TryTask(i));
    steps', s' := Go(s0, steps', s', TryTask(i));
    assert multiset{i, i} - multiset{i} - multiset{i} == NONE;
  }

  /** A pipeline whose last command is handed over once and whose background execution ends
      early is never answered. */
  lemma LostNeverWritten(s0: State) returns (steps: seq<Step>)
    requires Init(s0) && s0.n >= 1
    ensures Possible(s0, steps)
    ensures
      var s := After(s0, steps);
      Quiet(s) && s.lost != NONE && s.written == []
  {
    var s;
    steps, s := Inline(s0, [], s0, s0.n - 1);
    steps, s := Hand(s0, steps, s);
    steps, s := Go(s0, steps, s, TryBatch);
    steps, s := Go(s0, steps, s, Lose(s0.n - 1));
  }

  lemma FailLate(s0: State) returns (steps: seq<Step>, s: State)
    requires Init(s0) && s0.n == 2
    ensures Leads(s0, steps, s)
    ensures s == s0.(next := 1, resps := [Some("ERR")], num := 1, queued := multiset{0}, counted := multiset{0})
  {
    steps, s := Go(s0, [], s0, Push);
    steps, s := Go(s0, steps, s, HandOver);
    steps, s := Go(s0, steps, s, Answer("ERR"));
    steps, s := Go(s0, steps, s, Count);
  }

  /** A command that fails after it was handed over is answered at once and again by its
      background execution; with another one waiting the replies go out too early. */
  lemma LateFailure(s0: State) returns (steps: seq<Step>)
    requires Init(s0) && s0.n == 2
    ensures Possible(s0, steps)
    ensures
      var s := After(s0, steps);
      s.lost == NONE && !Single(s) && s.written == [[Some("1"), None]]
  {
    var s;
    steps, s := FailLate(s0);
    steps, s := Execute(s0, steps, s, 0, "1");
    steps, s := Hand(s0, steps, s);
    assert s.resps == [Some("1"), None];
    steps, s := Go(s0, steps, s, TryBatch);
    assert s.written == [s.resps[0..]] && s.resps[0..] == s.resps;
    assert Answers(s, 0) == 2;
  }
}
