/** How far a leader may commit: the greatest offset that enough followers hold. */
module CommitIndex {
  import opened Offsets

  type Follower = string

  /** Followers whose match offset has reached `o`. */
  function Holders(matches: map<Follower, LogOffset>, o: LogOffset): set<Follower> {
    set f | f in matches && o.AtMost(matches[f])
  }

  /** The value of `InternalCalCommittedIndex`. */
  ghost predicate IsCommitIndex(matches: map<Follower, LogOffset>, level: nat, c: LogOffset) {
    if level == 0 || |matches| < level then c == ZERO_OFFSET
    else
      && c in matches.Values
      && |Holders(matches, c)| >= level
      && forall o: LogOffset {:trigger Holders(matches, o)} :: |Holders(matches, o)| >= level ==> o.AtMost(c)
  }

  predicate Sorted(s: seq<LogOffset>) {
    forall i, j | 0 <= i < j < |s| :: s[i].AtMost(s[j])
  }

  /** How many of `s` have reached `o`. */
  function Reached(s: seq<LogOffset>, o: LogOffset): (n: nat)
    ensures n <= |s|
  {
    if s == [] then 0 else (if o.AtMost(s[0]) then 1 else 0) + Reached(s[1..], o)
  }

  lemma {:induction false} ReachedSplit(a: seq<LogOffset>, b: seq<LogOffset>, o: LogOffset)
    ensures Reached(a + b, o) == Reached(a, o) + Reached(b, o)
  {
    if a == [] {
      assert a + b == b;
    } else {
      assert (a + b)[1..] == a[1..] + b;
      ReachedSplit(a[1..], b, o);
    }
  }

  lemma WithoutOne(s: seq<LogOffset>, i: nat)
    requires i < |s|
    ensures multiset(s[..i] + s[i + 1..]) == multiset(s) - multiset{s[i]}
  {
    assert s == s[..i] + [s[i]] + s[i + 1..];
  }

  lemma ReachedWithout(s: seq<LogOffset>, i: nat, o: LogOffset)
    requires i < |s|
    ensures Reached(s, o) == Reached(s[..i] + s[i + 1..], o) + if o.AtMost(s[i]) then 1 else 0
  {
    assert s == s[..i] + s[i..];
    ReachedSplit(s[..i], s[i..], o);
    ReachedSplit(s[..i], s[i + 1..], o);
    assert s[i..][1..] == s[i + 1..];
  }

  /** The count does not depend on the order. */
  lemma {:induction false} ReachedPermutes(a: seq<LogOffset>, b: seq<LogOffset>, o: LogOffset)
    requires multiset(a) == multiset(b)
    ensures Reached(a, o) == Reached(b, o)
  {
    if a == [] {
      assert |multiset(b)| == 0;
    } else {
      assert a[0] in multiset(b);
      var i :| 0 <= i < |b| && b[i] == a[0];
      var b' := b[..i] + b[i + 1..];
      SameRest(a, b, i, b');
      ReachedPermutes(a[1..], b', o);
      ReachedWithout(b, i, o);
    }
  }

  lemma SameRest(a: seq<LogOffset>, b: seq<LogOffset>, i: nat, b': seq<LogOffset>)
    requires multiset(a) == multiset(b) && a != [] && i < |b| && b[i] == a[0] && b' == b[..i] + b[i + 1..]
    ensures multiset(a[1..]) == multiset(b')
  {
    WithoutOne(a, 0);
    WithoutOne(b, i);
    assert a[..0] + a[1..] == a[1..];
  }

  lemma {:induction false} ReachedAll(s: seq<LogOffset>, o: LogOffset)
    requires forall x | x in s :: o.AtMost(x)
    ensures Reached(s, o) == |s|
  {
    if s != [] {
      ReachedAll(s[1..], o);
    }
  }

  lemma {:induction false} ReachedNone(s: seq<LogOffset>, o: LogOffset)
    requires forall x | x in s :: !o.AtMost(x)
    ensures Reached(s, o) == 0
  {
    if s != [] {
      ReachedNone(s[1..], o);
    }
  }

  /** In a sorted sequence the k-th largest is the greatest offset that k have reached. */
  lemma KthLargest(s: seq<LogOffset>, k: nat, o: LogOffset)
    requires Sorted(s) && 0 < k <= |s|
    ensures Reached(s, s[|s| - k]) >= k
    ensures Reached(s, o) >= k ==> o.AtMost(s[|s| - k])
  {
    KthReached(s, |s| - k);
    if !o.AtMost(s[|s| - k]) {
      FewerBeyond(s, |s| - k, o);
    }
  }

  lemma KthReached(s: seq<LogOffset>, i: nat)
    requires Sorted(s) && i < |s|
    ensures Reached(s, s[i]) >= |s| - i
  {
    assert s == s[..i] + s[i..];
    ReachedSplit(s[..i], s[i..], s[i]);
    ReachedAll(s[i..], s[i]);
  }

  lemma FewerBeyond(s: seq<LogOffset>, i: nat, o: LogOffset)
    requires Sorted(s) && i < |s| && !o.AtMost(s[i])
    ensures Reached(s, o) < |s| - i
  {
    assert s == s[..i + 1] + s[i + 1..];
    ReachedSplit(s[..i + 1], s[i + 1..], o);
    forall x | x in s[..i + 1]
      ensures !o.AtMost(x)
    {
      var j :| 0 <= j < i + 1 && s[j] == x;
      assert j < i ==> s[j].AtMost(s[i]);
    }
    ReachedNone(s[..i + 1], o);
  }

  /** `keys` lists the followers and `offsets` their match offsets, in the same order. */
  ghost predicate Lists(matches: map<Follower, LogOffset>, keys: seq<Follower>, offsets: seq<LogOffset>) {
    && |keys| == |offsets|
    && (forall i, j | 0 <= i < j < |keys| :: keys[i] != keys[j])
    && (forall i | 0 <= i < |keys| :: keys[i] in matches && matches[keys[i]] == offsets[i])
  }

  lemma {:induction false} HoldersCount(matches: map<Follower, LogOffset>, keys: seq<Follower>, offsets: seq<LogOffset>, o: LogOffset)
    requires Lists(matches, keys, offsets)
    ensures |set f | f in keys && o.AtMost(matches[f])| == Reached(offsets, o)
  {
    var found := set f | f in keys && o.AtMost(matches[f]);
    if keys == [] {
      assert found == {};
    } else {
      var rest := set f | f in keys[1..] && o.AtMost(matches[f]);
      HoldersCount(matches, keys[1..], offsets[1..], o);
      assert keys[0] !in keys[1..];
      assert found == if o.AtMost(matches[keys[0]]) then rest + {keys[0]} else rest;
    }
  }

  /** Insertion sort, in place of the library's sort. */
  method SortOffsets(s: seq<LogOffset>) returns (r: seq<LogOffset>)
    ensures Sorted(r) && multiset(r) == multiset(s)
  {
    r := [];
    var i := 0;
    while i < |s|
      invariant 0 <= i <= |s| && Sorted(r) && multiset(r) == multiset(s[..i])
    {
      assert s[..i + 1] == s[..i] + [s[i]];
      r := Insert(r, s[i]);
      i := i + 1;
    }
    assert s[..i] == s;
  }

  method Insert(s: seq<LogOffset>, x: LogOffset) returns (r: seq<LogOffset>)
    requires Sorted(s)
    ensures Sorted(r) && multiset(r) == multiset(s) + multiset{x}
  {
    var k := 0;
    while k < |s| && s[k].AtMost(x)
      invariant 0 <= k <= |s|
      invariant forall j | 0 <= j < k :: s[j].AtMost(x)
    {
      k := k + 1;
    }
    InsertKeepsOrder(s, x, k);
    assert s == s[..k] + s[k..];
    r := s[..k] + [x] + s[k..];
  }

  lemma InsertKeepsOrder(s: seq<LogOffset>, x: LogOffset, k: nat)
    requires Sorted(s) && k <= |s| && (forall j | 0 <= j < k :: s[j].AtMost(x)) && (k < |s| ==> !s[k].AtMost(x))
    ensures Sorted(s[..k] + [x] + s[k..])
  {
    forall j | k <= j < |s|
      ensures x.AtMost(s[j])
    {
      assert k < j ==> s[k].AtMost(s[j]);
    }
  }

  /** The commit index: with level 0, or fewer followers than the level asks for,
      nothing; otherwise the greatest offset that `level` followers have reached. */
  method CalCommittedIndex(matches: map<Follower, LogOffset>, level: nat) returns (c: LogOffset)
    ensures IsCommitIndex(matches, level, c)
  {
    if level == 0 {
      return ZERO_OFFSET;
    }
    if |matches| < level {
      return ZERO_OFFSET;
    }
    var offsets: seq<LogOffset> := [];
    ghost var keys: seq<Follower> := [];
    var left := matches.Keys;
    while left != {}
      invariant left <= matches.Keys && Lists(matches, keys, offsets)
      invariant forall f | f in matches :: f in left <==> f !in keys
      invariant |left| + |keys| == |matches|
      decreases left
    {
      var f :| f in left;
      offsets := offsets + [matches[f]];
      keys := keys + [f];
      left := left - {f};
    }
    var sorted := SortOffsets(offsets);
    assert |multiset(sorted)| == |multiset(offsets)|;
    c := sorted[|sorted| - level];
    Chosen(matches, keys, offsets, sorted, level);
  }

  lemma Chosen(matches: map<Follower, LogOffset>, keys: seq<Follower>, offsets: seq<LogOffset>, sorted: seq<LogOffset>, level: nat)
    requires Lists(matches, keys, offsets) && |keys| == |matches|
    requires forall f | f in matches :: f in keys
    requires Sorted(sorted) && multiset(sorted) == multiset(offsets) && |sorted| == |offsets|
    requires 0 < level <= |matches|
    ensures IsCommitIndex(matches, level, sorted[|sorted| - level])
  {
    var c := sorted[|sorted| - level];
    assert c in multiset(offsets);
    var i :| 0 <= i < |offsets| && offsets[i] == c;
    assert matches[keys[i]] == c;
    forall o: LogOffset
      ensures |Holders(matches, o)| == Reached(sorted, o)
      ensures |Holders(matches, o)| >= level ==> o.AtMost(c)
    {
      assert Holders(matches, o) == set f | f in keys && o.AtMost(matches[f]);
      HoldersCount(matches, keys, offsets, o);
      ReachedPermutes(sorted, offsets, o);
      KthLargest(sorted, level, o);
    }
    KthLargest(sorted, level, c);
  }
}
