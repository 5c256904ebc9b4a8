/**
 Applying log entries on several workers. Each command goes to the queue of the worker
 that the hash of its key picks, each worker runs its own queue in order, and workers
 run at any speed while more commands are being scheduled.
 */
module ParallelApply {
  import opened Options

  /** A command that reads and writes one key only: its dispatch key. */
  datatype Command<!V> = Command(argv: seq<string>, effect: Option<V> -> Option<V>) {
    function Key(): (key: string)
      ensures |argv| >= 2 ==> key == argv[1]
      ensures |argv| == 1 ==> key == argv[0]
    {
      if |argv| >= 2 then argv[1] else if argv != [] then argv[0] else ""
    }
  }

  datatype Job<!V> = WriteBinlog(partition: string) | WriteDB(cmd: Command<V>)

  function Get<V>(db: map<string, V>, key: string): Option<V> {
    if key in db then Some(db[key]) else None
  }

  function Exec<V>(db: map<string, V>, c: Command<V>): map<string, V> {
    match c.effect(Get(db, c.Key()))
    case None => db - {c.Key()}
    case Some(v) => db[c.Key() := v]
  }

  /** Runs the database jobs of a queue in order. */
  function ExecAll<V>(db: map<string, V>, jobs: seq<Job<V>>): map<string, V> {
    if jobs == [] then db
    else
      var db' := ExecAll(db, jobs[..|jobs| - 1]);
      if jobs[|jobs| - 1].WriteDB? then Exec(db', jobs[|jobs| - 1].cmd) else db'
  }

  /** Running a queue is running its commands in order, each on its second argument: the
      last command decides what its key holds, from what the ones before it left there,
      and leaves every other key alone. */
  lemma ExecMeans<V>(db: map<string, V>, jobs: seq<Job<V>>, cmd: Command<V>, partition: string, key: string)
    requires |cmd.argv| >= 2
    ensures ExecAll(db, []) == db
    ensures ExecAll(db, jobs + [WriteBinlog(partition)]) == ExecAll(db, jobs)
    ensures
      var held := Get(ExecAll(db, jobs), key);
      Get(ExecAll(db, jobs + [WriteDB(cmd)]), key) == if key == cmd.argv[1] then cmd.effect(held) else held
  {
    assert (jobs + [WriteDB(cmd)])[..|jobs|] == jobs && (jobs + [WriteBinlog(partition)])[..|jobs|] == jobs;
  }

  lemma {:induction false} ExecFirst<V>(db: map<string, V>, jobs: seq<Job<V>>)
    requires jobs != []
    ensures ExecAll(db, jobs) == ExecAll(ExecAll(db, jobs[..1]), jobs[1..])
  {
    if |jobs| > 1 {
      ExecFirst(db, jobs[..|jobs| - 1]);
      assert jobs[..|jobs| - 1][..1] == jobs[..1] && jobs[..|jobs| - 1][1..] == jobs[1..][..|jobs| - 2];
    } else {
      assert jobs[..1] == jobs;
    }
  }

  lemma ExecOther<V>(db: map<string, V>, jobs: seq<Job<V>>, key: string)
    requires |jobs| == 1 && (jobs[0].WriteDB? ==> jobs[0].cmd.Key() != key)
    ensures Get(ExecAll(db, jobs), key) == Get(db, key)
  {
    assert jobs[..0] == [] && ExecAll(db, jobs[..0]) == db;
  }

  /** What a queue does to a key depends only on what the key holds. */
  lemma {:induction false} ExecLocal<V>(db: map<string, V>, db': map<string, V>, jobs: seq<Job<V>>, key: string)
    requires Get(db, key) == Get(db', key)
    ensures Get(ExecAll(db, jobs), key) == Get(ExecAll(db', jobs), key)
  {
    if jobs != [] {
      ExecLocal(db, db', jobs[..|jobs| - 1], key);
    }
  }

  /* ---------- workers ---------- */

  /** Worker of a client command on the leader. */
  function ClientIndex(hash: string -> nat, threads: nat, key: string): (i: nat)
    requires threads > 0
    ensures i < threads
  {
    hash(key) % threads
  }

  /** Worker of a task on the follower: binlog tasks in one half, database tasks in the other. */
  function HashIndex(hash: string -> nat, workers: nat, key: string, upperHalf: bool): (i: nat)
    requires workers >= 2
    ensures if upperHalf then i < workers / 2 else workers / 2 <= i < workers / 2 * 2 <= workers
  {
    hash(key) % (workers / 2) + if upperHalf then 0 else workers / 2
  }

  /** How jobs are given to workers: commands by key, binlog tasks by partition. */
  datatype Dispatch = Dispatch(ofKey: string -> nat, ofPartition: string -> nat) {
    function Pick<V>(job: Job<V>): nat {
      if job.WriteDB? then ofKey(job.cmd.Key()) else ofPartition(job.partition)
    }

    ghost predicate Within(n: nat) {
      forall k: string :: ofKey(k) < n && ofPartition(k) < n
    }
  }

  function FollowerDispatch(hash: string -> nat, n: nat): (d: Dispatch)
    requires n >= 2
    ensures d.Within(n)
  {
    Dispatch(k => HashIndex(hash, n, k, false), k => HashIndex(hash, n, k, true))
  }

  /** The leader has no binlog tasks among its client workers. */
  function LeaderDispatch(hash: string -> nat, threads: nat): (d: Dispatch)
    requires threads > 0
    ensures d.Within(threads)
  {
    Dispatch(k => ClientIndex(hash, threads, k), _ => 0)
  }

  class ClientProcessor<!V> {
    const hash: string -> nat
    var queues: seq<seq<Job<V>>>

    constructor (hash: string -> nat, workers: nat)
      ensures this.hash == hash && |queues| == workers && forall i | 0 <= i < |queues| :: queues[i] == []
    {
      this.hash := hash;
      queues := seq(workers, _ => []);
    }

    /** The string to hash is the caller's; for the command's own key it is the dispatch
        that the runs below are about. */
    method ScheduleBgThreads(cmd: Command<V>, hashStr: string)
      requires queues != []
      modifies this
      ensures queues == Pushed(old(queues), hash(hashStr) % |old(queues)|, WriteDB(cmd))
      ensures hashStr == cmd.Key() ==> queues == Pushed(old(queues), LeaderDispatch(hash, |old(queues)|).Pick(WriteDB(cmd)), WriteDB(cmd))
    {
      var index := hash(hashStr) % |queues|;
      queues := queues[index := queues[index] + [WriteDB(cmd)]];
    }
  }

  class ReplClient<!V> {
    const hash: string -> nat
    var queues: seq<seq<Job<V>>>

    constructor (hash: string -> nat, syncThreads: nat)
      requires syncThreads > 0
      ensures this.hash == hash && |queues| == 2 * syncThreads && forall i | 0 <= i < |queues| :: queues[i] == []
    {
      this.hash := hash;
      queues := seq(2 * syncThreads, _ => []);
    }

    method ScheduleWriteBinlogTask(partition: string)
      requires |queues| >= 2
      modifies this
      ensures queues == Pushed(old(queues), FollowerDispatch(hash, |old(queues)|).Pick(Job<V>.WriteBinlog(partition)), WriteBinlog(partition))
      ensures queues == Pushed(old(queues), hash(partition) % (|queues| / 2), WriteBinlog(partition))
    {
      var index := HashIndex(hash, |queues|, partition, true);
      queues := queues[index := queues[index] + [WriteBinlog(partition)]];
    }

    method ScheduleWriteDBTask(cmd: Command<V>)
      requires |queues| >= 2
      modifies this
      ensures queues == Pushed(old(queues), FollowerDispatch(hash, |old(queues)|).Pick(WriteDB(cmd)), WriteDB(cmd))
      ensures |cmd.argv| >= 2 ==>
                var half := |queues| / 2;
                queues == Pushed(old(queues), half + hash(cmd.argv[1]) % half, WriteDB(cmd))
    {
      var key := if |cmd.argv| >= 2 then cmd.argv[1] else if cmd.argv != [] then cmd.argv[0] else "";
      var index := HashIndex(hash, |queues|, key, false);
      queues := queues[index := queues[index] + [WriteDB(cmd)]];
    }
  }

  function Pushed<V>(queues: seq<seq<Job<V>>>, i: nat, job: Job<V>): (r: seq<seq<Job<V>>>)
    requires i < |queues|
    ensures |r| == |queues| && r[i] == queues[i] + [job] && forall w | 0 <= w < |r| && w != i :: r[w] == queues[w]
  {
    queues[i := queues[i] + [job]]
  }

  /* ---------- runs ---------- */

  datatype Pool<!V> = Pool(queues: seq<seq<Job<V>>>, db: map<string, V>, log: seq<Job<V>>)

  datatype Step<!V> = Schedule(job: Job<V>) | Work(worker: nat)

  ghost predicate Enabled<V>(d: Dispatch, p: Pool<V>, step: Step<V>) {
    match step
    case Schedule(job) => d.Pick(job) < |p.queues|
    case Work(w) => w < |p.queues| && p.queues[w] != []
  }

  function Apply<V>(d: Dispatch, p: Pool<V>, step: Step<V>): Pool<V>
    requires Enabled(d, p, step)
  {
    match step
    case Schedule(job) => p.(queues := Pushed(p.queues, d.Pick(job), job), log := p.log + [job])
    case Work(w) => p.(queues := p.queues[w := p.queues[w][1..]], db := ExecAll(p.db, p.queues[w][..1]))
  }

  /** Finishing the queue of a key brings it where running the log in order would. */
  ghost predicate OnTrack<V>(d: Dispatch, start: map<string, V>, p: Pool<V>, key: string)
    requires d.ofKey(key) < |p.queues|
  {
    Get(ExecAll(p.db, p.queues[d.ofKey(key)]), key) == Get(ExecAll(start, p.log), key)
  }

  ghost predicate Inv<V>(d: Dispatch, start: map<string, V>, p: Pool<V>) {
    && d.Within(|p.queues|)
    && (forall w, i | 0 <= w < |p.queues| && 0 <= i < |p.queues[w]| :: d.Pick(p.queues[w][i]) == w)
    && forall key :: OnTrack(d, start, p, key)
  }

  function ExecOne<V>(db: map<string, V>, job: Job<V>): map<string, V> {
    if job.WriteDB? then Exec(db, job.cmd) else db
  }

  lemma ExecSnoc<V>(db: map<string, V>, jobs: seq<Job<V>>, job: Job<V>)
    ensures ExecAll(db, jobs + [job]) == ExecOne(ExecAll(db, jobs), job)
  {
    assert (jobs + [job])[..|jobs|] == jobs;
  }

  /** The key holds the same in both, also after one more job on the one side, and on the
      other too if the job is given to the key's worker. */
  lemma OneMore<V>(d: Dispatch, db: map<string, V>, db': map<string, V>, job: Job<V>, key: string)
    requires Get(db, key) == Get(db', key)
    ensures Get(ExecOne(db, job), key) == Get(ExecOne(db', job), key)
    ensures d.Pick(job) != d.ofKey(key) ==> Get(db, key) == Get(ExecOne(db', job), key)
  {
  }

  lemma ScheduleTrack<V>(d: Dispatch, start: map<string, V>, p: Pool<V>, p': Pool<V>, job: Job<V>, key: string)
    requires d.Within(|p.queues|) && OnTrack(d, start, p, key)
    requires d.Pick(job) < |p.queues| && p' == Apply(d, p, Schedule(job))
    ensures OnTrack(d, start, p', key)
  {
    var w := d.ofKey(key);
    ExecSnoc(start, p.log, job);
    ExecSnoc(p.db, p.queues[w], job);
    OneMore(d, ExecAll(p.db, p.queues[w]), ExecAll(start, p.log), job, key);
  }

  lemma ScheduleStep<V>(d: Dispatch, start: map<string, V>, p: Pool<V>, job: Job<V>)
    requires Inv(d, start, p)
    ensures Inv(d, start, Apply(d, p, Schedule(job)))
  {
    var p' := Apply(d, p, Schedule(job));
    forall key
      ensures OnTrack(d, start, p', key)
    {
      assert OnTrack(d, start, p, key);
      ScheduleTrack(d, start, p, p', job, key);
    }
  }

  lemma WorkStep<V>(d: Dispatch, start: map<string, V>, p: Pool<V>, w: nat)
    requires Inv(d, start, p) && w < |p.queues| && p.queues[w] != []
    ensures Inv(d, start, Apply(d, p, Work(w)))
  {
    var p' := Apply(d, p, Work(w));
    forall key
      ensures OnTrack(d, start, p', key)
    {
      assert OnTrack(d, start, p, key);
      var v := d.ofKey(key);
      if v == w {
        ExecFirst(p.db, p.queues[w]);
      } else {
        assert d.Pick(p.queues[w][0]) == w;
        ExecOther(p.db, p.queues[w][..1], key);
        ExecLocal(p.db, p'.db, p.queues[v], key);
      }
    }
  }

  ghost predicate Possible<V>(d: Dispatch, p: Pool<V>, steps: seq<Step<V>>)
    decreases |steps|
  {
    steps == [] || (Enabled(d, p, steps[0]) && Possible(d, Apply(d, p, steps[0]), steps[1..]))
  }

  ghost function After<V>(d: Dispatch, p: Pool<V>, steps: seq<Step<V>>): Pool<V>
    requires Possible(d, p, steps)
    decreases |steps|
  {
    if steps == [] then p else After(d, Apply(d, p, steps[0]), steps[1..])
  }

  lemma {:induction false} RunKeepsInv<V>(d: Dispatch, start: map<string, V>, p: Pool<V>, steps: seq<Step<V>>)
    requires Inv(d, start, p) && Possible(d, p, steps)
    ensures Inv(d, start, After(d, p, steps))
    decreases |steps|
  {
    if steps != [] {
      match steps[0] {
        case Schedule(job) => ScheduleStep(d, start, p, job);
        case Work(w) => WorkStep(d, start, p, w);
      }
      RunKeepsInv(d, start, Apply(d, p, steps[0]), steps[1..]);
    }
  }

  /** The jobs scheduled, in order. */
  function Scheduled<V>(steps: seq<Step<V>>): seq<Job<V>> {
    if steps == [] then [] else (if steps[0].Schedule? then [steps[0].job] else []) + Scheduled(steps[1..])
  }

  lemma {:induction false} LogIsScheduled<V>(d: Dispatch, p: Pool<V>, steps: seq<Step<V>>)
    requires Possible(d, p, steps)
    ensures After(d, p, steps).log == p.log + Scheduled(steps)
    decreases |steps|
  {
    if steps != [] {
      LogIsScheduled(d, Apply(d, p, steps[0]), steps[1..]);
    }
  }

  /** However scheduling and the workers interleave, once the queues are empty the
      database is the one that running the scheduled jobs in order gives. */
  lemma ParallelIsSequential<V>(d: Dispatch, p: Pool<V>, steps: seq<Step<V>>)
    requires d.Within(|p.queues|) && p.log == [] && (forall w | 0 <= w < |p.queues| :: p.queues[w] == [])
    requires Possible(d, p, steps)
    ensures
      var p' := After(d, p, steps);
      (forall w | 0 <= w < |p'.queues| :: p'.queues[w] == []) ==> p'.db == ExecAll(p.db, Scheduled(steps))
  {
    LogIsScheduled(d, p, steps);
    assert p.log + Scheduled(steps) == Scheduled(steps);
    forall key
      ensures OnTrack(d, p.db, p, key)
    {
    }
    RunKeepsInv(d, p.db, p, steps);
    var p' := After(d, p, steps);
    if forall w | 0 <= w < |p'.queues| :: p'.queues[w] == [] {
      forall key: string
        ensures Get(p'.db, key) == Get(ExecAll(p.db, p'.log), key)
      {
        assert OnTrack(d, p.db, p', key);
        assert p'.queues[d.ofKey(key)] == [];
      }
      SameMaps(p'.db, ExecAll(p.db, p'.log));
    }
  }

  lemma SameMaps<V>(a: map<string, V>, b: map<string, V>)
    requires forall key :: Get(a, key) == Get(b, key)
    ensures a == b
  {
    forall key: string
      ensures key in a <==> key in b
      ensures key in a ==> a[key] == b[key]
    {
      assert Get(a, key) == Get(b, key);
    }
  }

  /** On the follower, no worker gets both binlog tasks and database tasks. */
  lemma HalvesApart<V>(hash: string -> nat, n: nat, steps: seq<Step<V>>, p: Pool<V>)
    requires n >= 2 && |p.queues| == n && p.log == [] && (forall w | 0 <= w < n :: p.queues[w] == [])
    requires Possible(FollowerDispatch(hash, n), p, steps)
    ensures
      var queues := After(FollowerDispatch(hash, n), p, steps).queues;
      |queues| == n && forall w, i, j | 0 <= w < n && 0 <= i < |queues[w]| && 0 <= j < |queues[w]| :: queues[w][i].WriteDB? == queues[w][j].WriteDB?
  {
    var d := FollowerDispatch(hash, n);
    forall key
      ensures OnTrack(d, p.db, p, key)
    {
    }
    RunKeepsInv(d, p.db, p, steps);
    RunKeepsWorkers(d, p, steps);
    var queues: seq<seq<Job<V>>> := After(d, p, steps).queues;
    forall w, i | 0 <= w < n && 0 <= i < |queues[w]|
      ensures queues[w][i].WriteDB? <==> w >= n / 2
    {
      assert d.Pick(queues[w][i]) == w;
    }
  }

  lemma {:induction false} RunKeepsWorkers<V>(d: Dispatch, p: Pool<V>, steps: seq<Step<V>>)
    requires Possible(d, p, steps)
    ensures |After(d, p, steps).queues| == |p.queues|
    decreases |steps|
  {
    if steps != [] {
      RunKeepsWorkers(d, Apply(d, p, steps[0]), steps[1..]);
    }
  }

  ghost predicate AllWork<V>(steps: seq<Step<V>>) { forall i | 0 <= i < |steps| :: steps[i].Work? }

  lemma {:induction false} AfterConcat<V>(d: Dispatch, p: Pool<V>, a: seq<Step<V>>, b: seq<Step<V>>)
    requires Possible(d, p, a) && Possible(d, After(d, p, a), b)
    ensures Possible(d, p, a + b) && After(d, p, a + b) == After(d, After(d, p, a), b)
    decreases |a|
  {
    if a == [] {
      assert a + b == b;
    } else {
      assert (a + b)[0] == a[0] && (a + b)[1..] == a[1..] + b;
      AfterConcat(d, Apply(d, p, a[0]), a[1..], b);
    }
  }

  lemma {:induction false} DrainOne<V>(d: Dispatch, p: Pool<V>, w: nat) returns (steps: seq<Step<V>>)
    requires w < |p.queues|
    ensures AllWork(steps) && Possible(d, p, steps)
    ensures After(d, p, steps).queues == p.queues[w := []]
    decreases |p.queues[w]|
  {
    if p.queues[w] == [] {
      steps := [];
    } else {
      var more := DrainOne(d, Apply(d, p, Work(w)), w);
      steps := [Work(w)] + more;
      assert steps[1..] == more;
    }
  }

  lemma {:induction false} DrainBelow<V>(d: Dispatch, p: Pool<V>, n: nat) returns (steps: seq<Step<V>>)
    requires n <= |p.queues|
    ensures AllWork(steps) && Possible(d, p, steps)
    ensures |After(d, p, steps).queues| == |p.queues| && forall w | 0 <= w < n :: After(d, p, steps).queues[w] == []
  {
    if n == 0 {
      steps := [];
    } else {
      var first := DrainBelow(d, p, n - 1);
      var last := DrainOne(d, After(d, p, first), n - 1);
      AfterConcat(d, p, first, last);
      steps := first + last;
    }
  }

  lemma {:induction false} WorkSchedulesNothing<V>(steps: seq<Step<V>>)
    requires AllWork(steps)
    ensures Scheduled(steps) == []
  {
    if steps != [] {
      WorkSchedulesNothing(steps[1..]);
    }
  }

  lemma {:induction false} ScheduledConcat<V>(a: seq<Step<V>>, b: seq<Step<V>>)
    ensures Scheduled(a + b) == Scheduled(a) + Scheduled(b)
    decreases |a|
  {
    if a == [] {
      assert a + b == b;
    } else {
      assert (a + b)[0] == a[0] && (a + b)[1..] == a[1..] + b;
      ScheduledConcat(a[1..], b);
    }
  }

  /** Wherever a run stands, the workers alone can finish it, with the database that
      running everything scheduled in order gives. */
  lemma WorkersFinish<V>(d: Dispatch, p: Pool<V>, steps: seq<Step<V>>) returns (more: seq<Step<V>>)
    requires d.Within(|p.queues|) && p.log == [] && (forall w | 0 <= w < |p.queues| :: p.queues[w] == [])
    requires Possible(d, p, steps)
    ensures AllWork(more) && Possible(d, p, steps + more)
    ensures After(d, p, steps + more).db == ExecAll(p.db, Scheduled(steps))
  {
    var q := After(d, p, steps);
    more := DrainBelow(d, q, |q.queues|);
    AfterConcat(d, p, steps, more);
    ParallelIsSequential(d, p, steps + more);
    ScheduledConcat(steps, more);
    WorkSchedulesNothing(more);
    assert Scheduled(steps) + [] == Scheduled(steps);
  }
}
