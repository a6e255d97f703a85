/**
  The meaning of `SELECT ... ORDER BY key LIMIT n`: the statement may answer with any
  `picked` list that `Oldest` accepts, so ties may be broken in any way.
 */
module Selection {
  ghost predicate Distinct<K>(s: seq<K>) {
    forall i, j | 0 <= i < j < |s| :: s[i] != s[j]
  }

  /** `picked` holds the `limit` rows of `keys` with the smallest keys, in order. */
  ghost predicate Oldest<K(!new)>(keys: map<K, int>, limit: nat, picked: seq<K>) {
    && Distinct(picked)
    && (forall k | k in picked :: k in keys)
    && |picked| == (if limit <= |keys.Keys| then limit else |keys.Keys|)
    && (forall i, j | 0 <= i < j < |picked| :: keys[picked[i]] <= keys[picked[j]])
    && (forall p, k | p in picked && k in keys && k !in picked :: keys[p] <= keys[k])
  }

  /** No statement is stuck: every table and every limit has an answer. */
  lemma {:induction false} OldestExists<K(!new)>(keys: map<K, int>, limit: nat) returns (picked: seq<K>)
    ensures Oldest(keys, limit, picked)
    decreases limit
  {
    if limit == 0 || keys.Keys == {} {
      picked := [];
    } else {
      var first := Least(keys, keys.Keys);
      var rest := keys - {first};
      assert rest.Keys == keys.Keys - {first};
      var tail := OldestExists(rest, limit - 1);
      picked := [first] + tail;
      forall p, k | p in picked && k in keys && k !in picked
        ensures keys[p] <= keys[k]
      {
        assert k in rest && k !in tail;
        if p != first { assert p in tail; }
      }
    }
  }

  lemma {:induction false} Least<K>(keys: map<K, int>, pool: set<K>) returns (least: K)
    requires pool != {} && pool <= keys.Keys
    ensures least in pool && forall k | k in pool :: keys[least] <= keys[k]
    decreases |pool|
  {
    var first :| first in pool;
    var rest := pool - {first};
    least := first;
    if rest != {} {
      var other := Least(keys, rest);
      if keys[other] < keys[first] { least := other; }
    }
    forall k | k in pool ensures keys[least] <= keys[k] {
      if k != first { assert k in rest; }
    }
  }

  /** A list without repetitions drawn from a set is no longer than the set, and as long only if it is all of it. */
  lemma {:induction false} DistinctSize<K>(s: seq<K>, pool: set<K>)
    requires Distinct(s) && forall k | k in s :: k in pool
    ensures |s| <= |pool|
    ensures |s| == |pool| ==> forall k | k in pool :: k in s
    decreases |s|
  {
    if s != [] {
      var init, last := s[..|s| - 1], s[|s| - 1];
      assert last !in init;
      DistinctSize(init, pool - {last});
      forall k | k in pool && |s| == |pool| ensures k in s {
        if k != last { assert k in pool - {last}; assert k in init; }
      }
    }
  }

  /** An answer shorter than its limit left nothing out. */
  lemma ShortAnswerIsComplete<K(!new)>(keys: map<K, int>, limit: nat, picked: seq<K>)
    requires Oldest(keys, limit, picked) && |picked| < limit
    ensures forall k | k in keys :: k in picked
  {
    DistinctSize(picked, keys.Keys);
  }

  lemma {:induction false} SetNoLarger<K>(s: seq<K>)
    ensures |set k | k in s| <= |s|
  {
    if s == [] {
      assert (set k | k in s) == {};
    } else {
      var init := s[..|s| - 1];
      SetNoLarger(init);
      assert (set k | k in s) == (set k | k in init) + {s[|s| - 1]};
    }
  }

  lemma OldestOfOne<K(!new)>(keys: map<K, int>, limit: nat, only: K)
    requires keys.Keys == {only} && limit > 0
    ensures Oldest(keys, limit, [only])
  {
  }

  lemma {:induction false} SubsetSize<K>(a: set<K>, b: set<K>)
    requires a <= b
    ensures |a| <= |b|
  {
    if a != {} {
      var k :| k in a;
      SubsetSize(a - {k}, b - {k});
    }
  }
}
