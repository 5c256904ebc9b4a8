/**
 Commands over many keys on a sharded table. The keys are divided among the partitions
 they belong to, each partition does its part, in any order of partitions, and the
 parts are merged into one reply.
 */
module SplitMerge {
  import opened Options

  type Store = map<string, string>

  datatype Multi =
    | Mget(ks: seq<string>)
    | Mset(kvs: seq<(string, string)>)
    | Del(ks: seq<string>)
    | Exists(ks: seq<string>)
  {
    function Keys(): seq<string> {
      if Mset? then KeysOf(kvs) else ks
    }
  }

  datatype Reply = Values(values: seq<Option<string>>) | Integer(n: nat) | Ok | InternalError | NoPartition

  function KeysOf(kvs: seq<(string, string)>): (keys: seq<string>)
    ensures |keys| == |kvs| && forall i | 0 <= i < |kvs| :: keys[i] == kvs[i].0
  {
    if kvs == [] then [] else KeysOf(kvs[..|kvs| - 1]) + [kvs[|kvs| - 1].0]
  }

  /* ---------- one store ---------- */

  function Get(s: Store, key: string): Option<string> {
    if key in s then Some(s[key]) else None
  }

  function GetAll(s: Store, keys: seq<string>): (values: seq<Option<string>>)
    ensures |values| == |keys| && forall i | 0 <= i < |keys| :: values[i] == Get(s, keys[i])
  {
    if keys == [] then [] else GetAll(s, keys[..|keys| - 1]) + [Get(s, keys[|keys| - 1])]
  }

  /** Writes the pairs in order. */
  function SetAll(s: Store, kvs: seq<(string, string)>): Store {
    if kvs == [] then s else SetAll(s, kvs[..|kvs| - 1])[kvs[|kvs| - 1].0 := kvs[|kvs| - 1].1]
  }

  /** Deletes the keys in order and counts those that were there. */
  function DelAll(s: Store, keys: seq<string>): (Store, nat) {
    if keys == [] then (s, 0)
    else
      var (s', n) := DelAll(s, keys[..|keys| - 1]);
      var key := keys[|keys| - 1];
      (s' - {key}, if key in s' then n + 1 else n)
  }

  function CountAll(s: Store, keys: seq<string>): nat {
    if keys == [] then 0 else CountAll(s, keys[..|keys| - 1]) + if keys[|keys| - 1] in s then 1 else 0
  }

  /** The command on a table with a single partition. */
  function Unsplit(s: Store, cmd: Multi): (Store, Reply) {
    match cmd
    case Mget(keys) => (s, Values(GetAll(s, keys)))
    case Mset(kvs) => (SetAll(s, kvs), Ok)
    case Del(keys) => var (s', n) := DelAll(s, keys); (s', Integer(n))
    case Exists(keys) => (s, Integer(CountAll(s, keys)))
  }

  /* ---------- what the commands do, key by key ---------- */

  /** Pair `j` is the last one that names `k`. */
  ghost predicate LastPair(kvs: seq<(string, string)>, k: string, j: int) {
    0 <= j < |kvs| && kvs[j].0 == k && forall i | j < i < |kvs| :: kvs[i].0 != k
  }

  /** What key `k` holds after the command: with many pairs for a key the last one counts. */
  ghost predicate Effect(cmd: Multi, before: Store, k: string, v: Option<string>) {
    match cmd
    case Mset(kvs) =>
      && ((forall i | 0 <= i < |kvs| :: kvs[i].0 != k) ==> v == Get(before, k))
      && (forall j | LastPair(kvs, k, j) :: v == Some(kvs[j].1))
    case Del(ks) => v == if k in ks then None else Get(before, k)
    case _ => v == Get(before, k)
  }

  /** The reply: values place by place, different keys deleted, places whose key exists. */
  ghost predicate Answer(cmd: Multi, before: Store, reply: Reply) {
    match cmd
    case Mget(ks) => reply.Values? && |reply.values| == |ks| && forall i | 0 <= i < |ks| :: reply.values[i] == Get(before, ks[i])
    case Mset(_) => reply == Ok
    case Del(ks) => reply == Integer(|set k | k in ks && k in before|)
    case Exists(ks) => reply == Integer(|set i | 0 <= i < |ks| && ks[i] in before|)
  }

  lemma {:induction false} UnnamedKeeps(s: Store, kvs: seq<(string, string)>, k: string)
    requires forall i | 0 <= i < |kvs| :: kvs[i].0 != k
    ensures Get(SetAll(s, kvs), k) == Get(s, k)
  {
    if kvs != [] {
      UnnamedKeeps(s, kvs[..|kvs| - 1], k);
    }
  }

  lemma {:induction false} LastPairWins(s: Store, kvs: seq<(string, string)>, k: string, j: int)
    requires LastPair(kvs, k, j)
    ensures Get(SetAll(s, kvs), k) == Some(kvs[j].1)
  {
    var n := |kvs| - 1;
    if j < n {
      assert kvs[n].0 != k;
      LastPairWins(s, kvs[..n], k, j);
    }
  }

  /** A key that is named has a last pair. */
  lemma {:induction false} LastPairExists(kvs: seq<(string, string)>, k: string, i: nat) returns (j: nat)
    requires i < |kvs| && kvs[i].0 == k
    ensures LastPair(kvs, k, j)
  {
    var n := |kvs| - 1;
    if kvs[n].0 == k {
      j := n;
    } else {
      j := LastPairExists(kvs[..n], k, i);
    }
  }

  /** `CountAll` is the number of places whose key exists. */
  lemma {:induction false} CountIsPlaces(s: Store, keys: seq<string>)
    ensures CountAll(s, keys) == |set i | 0 <= i < |keys| && keys[i] in s|
  {
    if keys != [] {
      var n := |keys| - 1;
      CountIsPlaces(s, keys[..n]);
      var before := set i | 0 <= i < n && keys[..n][i] in s;
      var all := set i | 0 <= i < |keys| && keys[i] in s;
      assert all == if keys[n] in s then before + {n} else before;
    }
  }

  /** The number deleted is the number of different keys that existed. */
  lemma {:induction false} DelIsKeys(s: Store, keys: seq<string>)
    ensures DelAll(s, keys).1 == |set k | k in keys && k in s|
  {
    if keys != [] {
      var n := |keys| - 1;
      DelIsKeys(s, keys[..n]);
      DelNext(s, keys[..n], keys[n]);
      assert keys == keys[..n] + [keys[n]];
      var before := set k | k in keys[..n] && k in s;
      var all := set k | k in keys && k in s;
      assert all == if keys[n] in s then before + {keys[n]} else before;
    }
  }

  lemma UnsplitMeans(s: Store, cmd: Multi)
    ensures Answer(cmd, s, Unsplit(s, cmd).1)
    ensures forall k :: Effect(cmd, s, k, Get(Unsplit(s, cmd).0, k))
  {
    match cmd
    case Mget(_) =>
    case Mset(kvs) =>
      forall k: string
        ensures Effect(cmd, s, k, Get(SetAll(s, kvs), k))
      {
        if forall i | 0 <= i < |kvs| :: kvs[i].0 != k {
          UnnamedKeeps(s, kvs, k);
        }
        forall j | LastPair(kvs, k, j) {
          LastPairWins(s, kvs, k, j);
        }
      }
    case Del(ks) =>
      DelRemoves(s, ks);
      DelIsKeys(s, ks);
    case Exists(ks) => CountIsPlaces(s, ks);
  }

  /* ---------- keys of some partitions ---------- */

  datatype HintKeys = HintKeys(keys: seq<string>, at: seq<nat>)

  /** The keys that belong to the partitions `ps`, with their places in the argument list. */
  function HintsFor(keys: seq<string>, part: string -> nat, ps: set<nat>): (h: HintKeys)
    ensures |h.keys| == |h.at| <= |keys|
    ensures forall j | 0 <= j < |h.at| :: h.at[j] < |keys| && keys[h.at[j]] == h.keys[j] && part(h.keys[j]) in ps
  {
    if keys == [] then HintKeys([], [])
    else
      var n := |keys| - 1;
      var h := HintsFor(keys[..n], part, ps);
      if part(keys[n]) in ps then HintKeys(h.keys + [keys[n]], h.at + [n]) else h
  }

  lemma {:induction false} HintsCover(keys: seq<string>, part: string -> nat, ps: set<nat>)
    ensures forall i | 0 <= i < |keys| && part(keys[i]) in ps :: i in HintsFor(keys, part, ps).at
  {
    if keys != [] {
      var n := |keys| - 1;
      HintsCover(keys[..n], part, ps);
      assert forall i | 0 <= i < n :: keys[..n][i] == keys[i];
    }
  }

  function Only(keys: seq<string>, part: string -> nat, ps: set<nat>): seq<string> {
    HintsFor(keys, part, ps).keys
  }

  lemma {:induction false} InOnly(keys: seq<string>, part: string -> nat, ps: set<nat>, k: string)
    ensures k in Only(keys, part, ps) <==> k in keys && part(k) in ps
  {
    if keys != [] {
      var n := |keys| - 1;
      InOnly(keys[..n], part, ps, k);
      assert keys == keys[..n] + [keys[n]];
    }
  }

  lemma {:induction false} OnlyAll(keys: seq<string>, part: string -> nat, ps: set<nat>)
    requires forall i | 0 <= i < |keys| :: part(keys[i]) in ps
    ensures Only(keys, part, ps) == keys
  {
    if keys != [] {
      OnlyAll(keys[..|keys| - 1], part, ps);
    }
  }

  lemma {:induction false} OnlyNone(keys: seq<string>, part: string -> nat)
    ensures Only(keys, part, {}) == []
  {
    if keys != [] {
      OnlyNone(keys[..|keys| - 1], part);
    }
  }

  /** A shard agrees with the whole table on the keys of its partition. */
  ghost predicate Agrees(whole: Store, shard: Store, part: string -> nat, p: nat) {
    forall k: string :: part(k) == p ==> Get(shard, k) == Get(whole, k)
  }

  /** How many of the keys that belong to `ps` the store has. */
  function CountIn(s: Store, keys: seq<string>, part: string -> nat, ps: set<nat>): nat {
    if keys == [] then 0
    else
      var n := |keys| - 1;
      CountIn(s, keys[..n], part, ps) + if part(keys[n]) in ps && keys[n] in s then 1 else 0
  }

  lemma {:induction false} CountOnly(s: Store, keys: seq<string>, part: string -> nat, ps: set<nat>)
    ensures CountAll(s, Only(keys, part, ps)) == CountIn(s, keys, part, ps)
  {
    if keys != [] {
      var n := |keys| - 1;
      CountOnly(s, keys[..n], part, ps);
      if part(keys[n]) in ps {
        var only := Only(keys[..n], part, ps);
        assert (only + [keys[n]])[..|only|] == only;
      }
    }
  }

  lemma {:induction false} CountInSplits(s: Store, shard: Store, keys: seq<string>, part: string -> nat, ps: set<nat>, p: nat)
    requires p !in ps && Agrees(s, shard, part, p)
    ensures CountIn(s, keys, part, ps + {p}) == CountIn(s, keys, part, ps) + CountIn(shard, keys, part, {p})
  {
    if keys != [] {
      var n := |keys| - 1;
      CountInSplits(s, shard, keys[..n], part, ps, p);
      assert part(keys[n]) == p ==> Get(shard, keys[n]) == Get(s, keys[n]);
    }
  }

  lemma CountSplits(s: Store, shard: Store, keys: seq<string>, part: string -> nat, ps: set<nat>, p: nat)
    requires p !in ps && Agrees(s, shard, part, p)
    ensures CountAll(s, Only(keys, part, ps + {p})) == CountAll(s, Only(keys, part, ps)) + CountAll(shard, Only(keys, part, {p}))
  {
    CountInSplits(s, shard, keys, part, ps, p);
    CountOnly(s, keys, part, ps + {p});
    CountOnly(s, keys, part, ps);
    CountOnly(shard, keys, part, {p});
  }

  /** Deleting removes exactly the keys named. */
  lemma {:induction false} DelRemoves(s: Store, keys: seq<string>)
    ensures forall k :: Get(DelAll(s, keys).0, k) == if k in keys then None else Get(s, k)
  {
    if keys != [] {
      var n := |keys| - 1;
      DelRemoves(s, keys[..n]);
      assert keys == keys[..n] + [keys[n]];
    }
  }

  /** How many different keys that belong to `ps` the store has. */
  function DelIn(s: Store, keys: seq<string>, part: string -> nat, ps: set<nat>): nat {
    if keys == [] then 0
    else
      var n := |keys| - 1;
      DelIn(s, keys[..n], part, ps) + if part(keys[n]) in ps && keys[n] in s && keys[n] !in keys[..n] then 1 else 0
  }

  lemma {:induction false} DelOnly(s: Store, keys: seq<string>, part: string -> nat, ps: set<nat>)
    ensures DelAll(s, Only(keys, part, ps)).1 == DelIn(s, keys, part, ps)
  {
    if keys != [] {
      var n := |keys| - 1;
      DelOnly(s, keys[..n], part, ps);
      if part(keys[n]) in ps {
        DelNext(s, Only(keys[..n], part, ps), keys[n]);
        InOnly(keys[..n], part, ps, keys[n]);
      }
    }
  }

  lemma DelNext(s: Store, keys: seq<string>, key: string)
    ensures DelAll(s, keys + [key]).1 == DelAll(s, keys).1 + if key in s && key !in keys then 1 else 0
  {
    DelRemoves(s, keys);
    assert (keys + [key])[..|keys|] == keys;
    assert Get(DelAll(s, keys).0, key) == if key in keys then None else Get(s, key);
  }

  lemma {:induction false} DelInSplits(s: Store, shard: Store, keys: seq<string>, part: string -> nat, ps: set<nat>, p: nat)
    requires p !in ps && Agrees(s, shard, part, p)
    ensures DelIn(s, keys, part, ps + {p}) == DelIn(s, keys, part, ps) + DelIn(shard, keys, part, {p})
  {
    if keys != [] {
      var n := |keys| - 1;
      DelInSplits(s, shard, keys[..n], part, ps, p);
      assert part(keys[n]) == p ==> Get(shard, keys[n]) == Get(s, keys[n]);
    }
  }

  lemma DelSplits(s: Store, shard: Store, keys: seq<string>, part: string -> nat, ps: set<nat>, p: nat)
    requires p !in ps && Agrees(s, shard, part, p)
    ensures DelAll(s, Only(keys, part, ps + {p})).1 == DelAll(s, Only(keys, part, ps)).1 + DelAll(shard, Only(keys, part, {p})).1
  {
    DelInSplits(s, shard, keys, part, ps, p);
    DelOnly(s, keys, part, ps + {p});
    DelOnly(s, keys, part, ps);
    DelOnly(shard, keys, part, {p});
  }

  /** The pairs whose keys belong to partition `p`. */
  function PairsOf(kvs: seq<(string, string)>, part: string -> nat, p: nat): seq<(string, string)> {
    if kvs == [] then []
    else
      var n := |kvs| - 1;
      PairsOf(kvs[..n], part, p) + if part(kvs[n].0) == p then [kvs[n]] else []
  }

  lemma {:induction false} SetAgrees(s: Store, shard: Store, kvs: seq<(string, string)>, part: string -> nat, p: nat)
    requires Agrees(s, shard, part, p)
    ensures Agrees(SetAll(s, kvs), SetAll(shard, PairsOf(kvs, part, p)), part, p)
  {
    if kvs != [] {
      var n := |kvs| - 1;
      SetAgrees(s, shard, kvs[..n], part, p);
      var rest := PairsOf(kvs[..n], part, p);
      if part(kvs[n].0) == p {
        assert (rest + [kvs[n]])[..|rest|] == rest;
      } else {
        assert PairsOf(kvs, part, p) == rest;
      }
    }
  }

  /** A shard that gets only its own pairs holds, for each of its keys, the value of the
      last pair in the whole list that names the key, and what it held if none does. */
  lemma SetSplits(shard: Store, kvs: seq<(string, string)>, part: string -> nat, p: nat, k: string)
    requires part(k) == p
    ensures (forall i | 0 <= i < |kvs| :: kvs[i].0 != k) ==> Get(SetAll(shard, PairsOf(kvs, part, p)), k) == Get(shard, k)
    ensures forall j | LastPair(kvs, k, j) :: Get(SetAll(shard, PairsOf(kvs, part, p)), k) == Some(kvs[j].1)
  {
    SetAgrees(shard, shard, kvs, part, p);
    if forall i | 0 <= i < |kvs| :: kvs[i].0 != k {
      UnnamedKeeps(shard, kvs, k);
    }
    forall j | LastPair(kvs, k, j) {
      LastPairWins(shard, kvs, k, j);
    }
  }

  lemma DelAgrees(s: Store, shard: Store, keys: seq<string>, part: string -> nat, p: nat)
    requires Agrees(s, shard, part, p)
    ensures Agrees(DelAll(s, keys).0, DelAll(shard, Only(keys, part, {p})).0, part, p)
  {
    DelRemoves(s, keys);
    DelRemoves(shard, Only(keys, part, {p}));
    forall k: string
      ensures k in Only(keys, part, {p}) <==> k in keys && part(k) == p
    {
      InOnly(keys, part, {p}, k);
    }
  }

  /* ---------- the command ---------- */

  class Table {
    var stores: map<nat, Store>
  }

  function PairsAt(kvs: seq<(string, string)>, at: seq<nat>): seq<(string, string)>
    requires forall j | 0 <= j < |at| :: at[j] < |kvs|
  {
    if at == [] then [] else PairsAt(kvs, at[..|at| - 1]) + [kvs[at[|at| - 1]]]
  }

  lemma {:induction false} PairsAtPrefix(kvs: seq<(string, string)>, at: seq<nat>, n: nat)
    requires n <= |kvs| && forall j | 0 <= j < |at| :: at[j] < n
    ensures PairsAt(kvs, at) == PairsAt(kvs[..n], at)
  {
    if at != [] {
      PairsAtPrefix(kvs, at[..|at| - 1], n);
    }
  }

  lemma {:induction false} PairsAtHints(kvs: seq<(string, string)>, part: string -> nat, p: nat)
    ensures PairsAt(kvs, HintsFor(KeysOf(kvs), part, {p}).at) == PairsOf(kvs, part, p)
  {
    if kvs != [] {
      var n := |kvs| - 1;
      PairsAtHints(kvs[..n], part, p);
      var h := HintsFor(KeysOf(kvs[..n]), part, {p});
      assert KeysOf(kvs)[..n] == KeysOf(kvs[..n]);
      PairsAtPrefix(kvs, h.at, n);
      assert (h.at + [n])[..|h.at|] == h.at;
    }
  }

  lemma PairsAtNext(kvs: seq<(string, string)>, at: seq<nat>, i: nat)
    requires i < |at| && forall j | 0 <= j < |at| :: at[j] < |kvs|
    ensures PairsAt(kvs, at[..i + 1]) == PairsAt(kvs, at[..i]) + [kvs[at[i]]]
  {
    assert at[..i + 1][..i] == at[..i];
  }

  /** The pair a hint points to has the hint's key. */
  lemma HintKey(kvs: seq<(string, string)>, part: string -> nat, p: nat, i: nat)
    requires i < |HintsFor(KeysOf(kvs), part, {p}).at|
    ensures
      var h := HintsFor(KeysOf(kvs), part, {p});
      h.at[i] < |kvs| && kvs[h.at[i]].0 == h.keys[i]
  {
  }

  /** The places in `at` hold the values of their keys; places of other partitions are as before. */
  ghost predicate Filling(values: seq<Option<string>>, before: seq<Option<string>>, keys: seq<string>, store: Store,
                          part: string -> nat, p: nat, at: seq<nat>)
  {
    && |values| == |before| == |keys|
    && (forall i | 0 <= i < |keys| && i in at :: values[i] == Get(store, keys[i]))
    && (forall i | 0 <= i < |keys| && part(keys[i]) != p :: values[i] == before[i])
  }

  /** With all the hints of a partition filled, every place of it is. */
  lemma FillDone(values: seq<Option<string>>, before: seq<Option<string>>, keys: seq<string>, store: Store,
                 part: string -> nat, p: nat, at: seq<nat>)
    requires Filling(values, before, keys, store, part, p, at)
    requires forall i | 0 <= i < |keys| && part(keys[i]) in {p} :: i in at
    ensures forall i | 0 <= i < |keys| :: values[i] == if part(keys[i]) == p then Get(store, keys[i]) else before[i]
  {
    forall i | 0 <= i < |keys|
      ensures values[i] == if part(keys[i]) == p then Get(store, keys[i]) else before[i]
    {
      assert part(keys[i]) == p ==> part(keys[i]) in {p};
    }
  }

  lemma FillNext(values: seq<Option<string>>, before: seq<Option<string>>, keys: seq<string>, store: Store,
                 part: string -> nat, p: nat, at: seq<nat>, n: nat)
    requires Filling(values, before, keys, store, part, p, at) && n < |keys| && part(keys[n]) == p
    ensures Filling(values[n := Get(store, keys[n])], before, keys, store, part, p, at + [n])
  {
  }

  function PartOf(process: map<nat, HintKeys>, p: nat): HintKeys {
    if p in process then process[p] else HintKeys([], [])
  }

  /** The keys so far are divided among exactly the partitions they belong to. */
  ghost predicate Divided(process: map<nat, HintKeys>, keys: seq<string>, part: string -> nat) {
    && (forall i | 0 <= i < |keys| :: part(keys[i]) in process)
    && (forall p :: PartOf(process, p) == HintsFor(keys, part, {p}))
  }

  lemma HintsNext(keys: seq<string>, part: string -> nat, key: string, p: nat)
    ensures
      var h := HintsFor(keys, part, {p});
      HintsFor(keys + [key], part, {p}) == if part(key) == p then HintKeys(h.keys + [key], h.at + [|keys|]) else h
  {
    assert (keys + [key])[..|keys|] == keys;
  }

  lemma DividedNext(process: map<nat, HintKeys>, keys: seq<string>, part: string -> nat, key: string)
    requires Divided(process, keys, part)
    ensures
      var p := part(key);
      var h := PartOf(process, p);
      Divided(process[p := HintKeys(h.keys + [key], h.at + [|keys|])], keys + [key], part)
  {
    var h := PartOf(process, part(key));
    var process' := process[part(key) := HintKeys(h.keys + [key], h.at + [|keys|])];
    forall p: nat
      ensures PartOf(process', p) == HintsFor(keys + [key], part, {p})
    {
      HintsNext(keys, part, key, p);
      assert PartOf(process, p) == HintsFor(keys, part, {p});
    }
  }

  lemma DividedAt(process: map<nat, HintKeys>, keys: seq<string>, hint: nat, part: string -> nat)
    requires hint < |keys| && Divided(process, keys[..hint], part)
    ensures
      var p := part(keys[hint]);
      var h := PartOf(process, p);
      Divided(process[p := HintKeys(h.keys + [keys[hint]], h.at + [hint])], keys[..hint + 1], part)
  {
    assert keys[..hint + 1] == keys[..hint] + [keys[hint]];
    DividedNext(process, keys[..hint], part, keys[hint]);
  }

  class MultiCommand {
    const cmd: Multi
    var values: seq<Option<string>>
    var count: nat

    constructor (cmd: Multi)
      ensures this.cmd == cmd && count == 0 && |values| == |cmd.Keys()|
    {
      this.cmd := cmd;
      values := seq(|cmd.Keys()|, _ => None);
      count := 0;
    }

    /** Divides the keys among their partitions. */
    method SplitKeys(part: string -> nat, present: set<nat>) returns (ok: bool, process: map<nat, HintKeys>)
      ensures ok <==> forall i | 0 <= i < |cmd.Keys()| :: part(cmd.Keys()[i]) in present
      ensures ok ==> process.Keys <= present
      ensures ok ==> forall i | 0 <= i < |cmd.Keys()| :: part(cmd.Keys()[i]) in process
      ensures ok ==> forall p | p in process :: process[p] == HintsFor(cmd.Keys(), part, {p})
    {
      var keys := cmd.Keys();
      process := map[];
      var hint := 0;
      while hint < |keys|
        invariant 0 <= hint <= |keys| && process.Keys <= present
        invariant Divided(process, keys[..hint], part)
      {
        var p := part(keys[hint]);
        DividedAt(process, keys, hint, part);
        if p !in process && p !in present {
          return false, map[];
        }
        var h := PartOf(process, p);
        process := process[p := HintKeys(h.keys + [keys[hint]], h.at + [hint])];
        hint := hint + 1;
      }
      assert keys[..hint] == keys;
      assert forall p | p in process :: process[p] == PartOf(process, p);
      ok := true;
    }

    /** Reads the keys of one partition into their places in the reply. */
    method SplitMget(store: Store, h: HintKeys, ghost part: string -> nat, ghost p: nat)
      requires cmd.Mget? && |values| == |cmd.ks| && h == HintsFor(cmd.ks, part, {p})
      modifies this`values
      ensures |values| == |cmd.ks|
      ensures forall i | 0 <= i < |values| ::
                values[i] == if part(cmd.ks[i]) == p then Get(store, cmd.ks[i]) else old(values)[i]
    {
      var vss := GetAll(store, h.keys);
      var j := 0;
      while j < |vss|
        invariant 0 <= j <= |vss| && Filling(values, old(values), cmd.ks, store, part, p, h.at[..j])
      {
        FillNext(values, old(values), cmd.ks, store, part, p, h.at[..j], h.at[j]);
        assert h.at[..j + 1] == h.at[..j] + [h.at[j]];
        values := values[h.at[j] := vss[j]];
        j := j + 1;
      }
      assert h.at[..j] == h.at;
      HintsCover(cmd.ks, part, {p});
      FillDone(values, old(values), cmd.ks, store, part, p, h.at);
    }

    /** Collects the pairs of one partition; their keys are checked against the hints. */
    method PairsFor(h: HintKeys, ghost part: string -> nat, ghost p: nat) returns (ok: bool, pairs: seq<(string, string)>)
      requires cmd.Mset? && h == HintsFor(cmd.Keys(), part, {p})
      ensures ok && pairs == PairsOf(cmd.kvs, part, p)
    {
      pairs := [];
      var i := 0;
      while i < |h.keys|
        invariant 0 <= i <= |h.keys| && pairs == PairsAt(cmd.kvs, h.at[..i])
      {
        HintKey(cmd.kvs, part, p, i);
        PairsAtNext(cmd.kvs, h.at, i);
        if cmd.kvs[h.at[i]].0 != h.keys[i] {
          return false, pairs;
        }
        pairs := pairs + [cmd.kvs[h.at[i]]];
        i := i + 1;
      }
      assert h.at[..i] == h.at;
      PairsAtHints(cmd.kvs, part, p);
      ok := true;
    }

    /** One partition's part of the command. */
    method Split(t: Table, p: nat, h: HintKeys, ghost part: string -> nat) returns (ok: bool)
      requires p in t.stores && |values| == |cmd.Keys()| && h == HintsFor(cmd.Keys(), part, {p})
      modifies this, t
      ensures ok && |values| == |cmd.Keys()|
      ensures t.stores == old(t.stores)[p := PartStore(old(t.stores)[p], cmd, part, p)]
      ensures count == old(count) + PartCount(old(t.stores)[p], cmd, part, p)
      ensures cmd.Mget? ==> forall i | 0 <= i < |values| ::
                values[i] == if part(cmd.ks[i]) == p then Get(old(t.stores)[p], cmd.ks[i]) else old(values)[i]
    {
      ok := true;
      match cmd
      case Mget(_) =>
        SplitMget(t.stores[p], h, part, p);
        assert t.stores == t.stores[p := t.stores[p]];
      case Mset(_) =>
        var pairs;
        ok, pairs := PairsFor(h, part, p);
        t.stores := t.stores[p := SetAll(t.stores[p], pairs)];
      case Del(_) =>
        var (store, n) := DelAll(t.stores[p], h.keys);
        t.stores := t.stores[p := store];
        count := count + n;
      case Exists(_) =>
        count := count + CountAll(t.stores[p], h.keys);
        assert t.stores == t.stores[p := t.stores[p]];
    }

    /** Splits the command over the partitions, visits them in any order and merges.
        The reply and the stores are those of the command on one unsplit store. */
    method ProcessMultiPartitionCmd(t: Table, part: string -> nat, ghost whole: Store) returns (reply: Reply)
      requires Sharded(t.stores, part, whole)
      requires count == 0 && |values| == |cmd.Keys()|
      modifies this, t
      ensures
        if cmd.Keys() == [] then reply == InternalError
        else if exists i :: 0 <= i < |cmd.Keys()| && part(cmd.Keys()[i]) !in old(t.stores) then reply == NoPartition
        else reply == Unsplit(whole, cmd).1
      ensures Sharded(t.stores, part, if reply.InternalError? || reply.NoPartition? then whole else Unsplit(whole, cmd).0)
      ensures reply.InternalError? || reply.NoPartition? ==> t.stores == old(t.stores)
      ensures !reply.InternalError? && !reply.NoPartition? ==>
                && Answer(cmd, whole, reply) && t.stores.Keys == old(t.stores).Keys
                && forall k: string | part(k) in t.stores :: Effect(cmd, whole, k, Get(t.stores[part(k)], k))
    {
      var keys := cmd.Keys();
      if keys == [] {
        return InternalError;
      }
      var ok, process := SplitKeys(part, t.stores.Keys);
      if !ok {
        return NoPartition;
      }
      reply := ProcessSplit(t, process, part, whole);
      UnsplitMeans(whole, cmd);
    }

    method ProcessSplit(t: Table, process: map<nat, HintKeys>, ghost part: string -> nat, ghost whole: Store) returns (reply: Reply)
      requires Sharded(t.stores, part, whole) && process.Keys <= t.stores.Keys
      requires forall i | 0 <= i < |cmd.Keys()| :: part(cmd.Keys()[i]) in process.Keys
      requires forall p | p in process :: process[p] == HintsFor(cmd.Keys(), part, {p})
      requires count == 0 && |values| == |cmd.Keys()|
      modifies this, t
      ensures reply == Unsplit(whole, cmd).1 && Sharded(t.stores, part, Unsplit(whole, cmd).0)
      ensures t.stores.Keys == old(t.stores).Keys
    {
      ghost var stores := t.stores;
      var _ := VisitAll(t, process, part, whole);
      AllVisited(whole, stores, t.stores, cmd, part, process.Keys);
      OnlyAll(cmd.Keys(), part, process.Keys);
      assert cmd.Mget? ==> values == GetAll(whole, cmd.ks);
      reply := Merge(cmd, values, count);
    }

    /** The partitions `done` have done their part for the stores and for the reply. */
    ghost predicate Progress(stores: map<nat, Store>, before: map<nat, Store>, part: string -> nat, whole: Store, done: set<nat>)
      reads this
    {
      && |values| == |cmd.Keys()| && Visited(stores, before, cmd, part, done)
      && count == Totals(whole, cmd, part, done)
      && (cmd.Mget? ==> Filled(values, whole, cmd.ks, part, done))
    }

    method VisitOne(t: Table, p: nat, h: HintKeys, ghost part: string -> nat, ghost whole: Store, ghost before: map<nat, Store>, ghost done: set<nat>)
        returns (ok: bool)
      requires Sharded(before, part, whole) && Progress(t.stores, before, part, whole, done)
      requires p in t.stores && p !in done && h == HintsFor(cmd.Keys(), part, {p})
      modifies this, t
      ensures ok && Progress(t.stores, before, part, whole, done + {p})
    {
      VisitedGrows(t.stores, before, cmd, part, done, p);
      TotalsGrow(whole, before[p], cmd, part, done, p);
      ghost var values0 := values;
      ok := Split(t, p, h, part);
      if cmd.Mget? {
        FilledGrows(values0, values, whole, before[p], cmd.ks, part, done, p);
      }
    }

    /** Visits the partitions in any order. */
    method VisitAll(t: Table, process: map<nat, HintKeys>, ghost part: string -> nat, ghost whole: Store) returns (ok: bool)
      requires Sharded(t.stores, part, whole) && process.Keys <= t.stores.Keys
      requires forall p | p in process :: process[p] == HintsFor(cmd.Keys(), part, {p})
      requires count == 0 && |values| == |cmd.Keys()|
      modifies this, t
      ensures ok && Progress(t.stores, old(t.stores), part, whole, process.Keys)
    {
      var remaining := process.Keys;
      ghost var done: set<nat> := {};
      OnlyNone(cmd.Keys(), part);
      ok := true;
      while remaining != {}
        invariant remaining <= process.Keys && done == process.Keys - remaining && ok
        invariant Progress(t.stores, old(t.stores), part, whole, done)
        decreases remaining
      {
        var p :| p in remaining;
        ok := VisitOne(t, p, process[p], part, whole, old(t.stores), done);
        done, remaining := done + {p}, remaining - {p};
      }
      assert done == process.Keys;
    }
  }

  /** The reply from the merged parts. */
  function Merge(cmd: Multi, values: seq<Option<string>>, count: nat): Reply {
    match cmd
    case Mget(_) => Values(values)
    case Mset(_) => Ok
    case Del(_) => Integer(count)
    case Exists(_) => Integer(count)
  }

  function PartStore(s: Store, cmd: Multi, part: string -> nat, p: nat): Store {
    match cmd
    case Mset(kvs) => SetAll(s, PairsOf(kvs, part, p))
    case Del(keys) => DelAll(s, Only(keys, part, {p})).0
    case _ => s
  }

  function PartCount(s: Store, cmd: Multi, part: string -> nat, p: nat): nat {
    match cmd
    case Del(keys) => DelAll(s, Only(keys, part, {p})).1
    case Exists(keys) => CountAll(s, Only(keys, part, {p}))
    case _ => 0
  }

  /** What the partitions `ps` contribute to the count. */
  function Totals(s: Store, cmd: Multi, part: string -> nat, ps: set<nat>): nat {
    match cmd
    case Del(keys) => DelAll(s, Only(keys, part, ps)).1
    case Exists(keys) => CountAll(s, Only(keys, part, ps))
    case _ => 0
  }

  /** Each shard agrees with the whole on the keys of its partition. */
  ghost predicate Sharded(stores: map<nat, Store>, part: string -> nat, whole: Store) {
    forall p | p in stores :: Agrees(whole, stores[p], part, p)
  }

  /** The partitions in `done` have done their part, the others nothing. */
  ghost predicate Visited(stores: map<nat, Store>, before: map<nat, Store>, cmd: Multi, part: string -> nat, done: set<nat>) {
    && stores.Keys == before.Keys
    && forall p | p in stores :: stores[p] == if p in done then PartStore(before[p], cmd, part, p) else before[p]
  }

  lemma VisitedGrows(stores: map<nat, Store>, before: map<nat, Store>, cmd: Multi, part: string -> nat, done: set<nat>, p: nat)
    requires Visited(stores, before, cmd, part, done) && p in stores && p !in done
    ensures stores[p] == before[p] && p in before
    ensures Visited(stores[p := PartStore(stores[p], cmd, part, p)], before, cmd, part, done + {p})
  {
  }

  /** The reply holds the values of all keys in the partitions `done`. */
  ghost predicate Filled(values: seq<Option<string>>, whole: Store, keys: seq<string>, part: string -> nat, done: set<nat>) {
    |values| == |keys| && forall i | 0 <= i < |keys| && part(keys[i]) in done :: values[i] == Get(whole, keys[i])
  }

  lemma FilledGrows(values: seq<Option<string>>, values': seq<Option<string>>, whole: Store, shard: Store, keys: seq<string>,
                    part: string -> nat, done: set<nat>, p: nat)
    requires Filled(values, whole, keys, part, done) && Agrees(whole, shard, part, p) && |values'| == |values|
    requires forall i | 0 <= i < |values'| :: values'[i] == if part(keys[i]) == p then Get(shard, keys[i]) else values[i]
    ensures Filled(values', whole, keys, part, done + {p})
  {
  }

  lemma TotalsGrow(s: Store, shard: Store, cmd: Multi, part: string -> nat, ps: set<nat>, p: nat)
    requires p !in ps && Agrees(s, shard, part, p)
    ensures Totals(s, cmd, part, ps + {p}) == Totals(s, cmd, part, ps) + PartCount(shard, cmd, part, p)
  {
    match cmd
    case Del(keys) => DelSplits(s, shard, keys, part, ps, p);
    case Exists(keys) => CountSplits(s, shard, keys, part, ps, p);
    case _ =>
  }

  lemma PartAgrees(s: Store, shard: Store, cmd: Multi, part: string -> nat, p: nat)
    requires Agrees(s, shard, part, p)
    ensures Agrees(Unsplit(s, cmd).0, PartStore(shard, cmd, part, p), part, p)
  {
    match cmd
    case Mset(kvs) => SetAgrees(s, shard, kvs, part, p);
    case Del(keys) => DelAgrees(s, shard, keys, part, p);
    case _ =>
  }

  lemma {:induction false} NoPairs(kvs: seq<(string, string)>, part: string -> nat, p: nat)
    requires forall i | 0 <= i < |kvs| :: part(kvs[i].0) != p
    ensures PairsOf(kvs, part, p) == []
  {
    if kvs != [] {
      NoPairs(kvs[..|kvs| - 1], part, p);
    }
  }

  lemma {:induction false} NoHints(keys: seq<string>, part: string -> nat, p: nat)
    requires forall i | 0 <= i < |keys| :: part(keys[i]) != p
    ensures Only(keys, part, {p}) == []
  {
    if keys != [] {
      NoHints(keys[..|keys| - 1], part, p);
    }
  }

  lemma PartUntouched(s: Store, cmd: Multi, part: string -> nat, p: nat)
    requires forall i | 0 <= i < |cmd.Keys()| :: part(cmd.Keys()[i]) != p
    ensures PartStore(s, cmd, part, p) == s
  {
    match cmd
    case Mset(kvs) =>
      forall i | 0 <= i < |kvs|
        ensures part(kvs[i].0) != p
      {
        assert part(cmd.Keys()[i]) != p;
      }
      NoPairs(kvs, part, p);
    case Del(_) => NoHints(cmd.Keys(), part, p);
    case _ =>
  }

  lemma AllVisited(whole: Store, before: map<nat, Store>, after: map<nat, Store>, cmd: Multi, part: string -> nat, done: set<nat>)
    requires Sharded(before, part, whole) && Visited(after, before, cmd, part, done)
    requires forall i | 0 <= i < |cmd.Keys()| :: part(cmd.Keys()[i]) in done
    ensures Sharded(after, part, Unsplit(whole, cmd).0)
  {
    forall p | p in after
      ensures Agrees(Unsplit(whole, cmd).0, after[p], part, p)
    {
      PartAgrees(whole, before[p], cmd, part, p);
      if p !in done {
        PartUntouched(before[p], cmd, part, p);
      }
    }
  }
}
