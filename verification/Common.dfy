/** Small vocabulary shared by the models. */
module Common {

  datatype Option<+T> = None | Some(value: T)

  /** The numbers 0, 1, .., n-1. */
  function Below(n: nat): (r: set<nat>)
    ensures |r| == n
    ensures forall i :: i in r <==> 0 <= i < n
  {
    if n == 0 then {} else Below(n - 1) + {n - 1}
  }

  lemma AtMostBelow(s: set<nat>, n: nat)
    requires s <= Below(n)
    ensures |s| <= n
  {
    assert Below(n) == s + (Below(n) - s);
  }

  /** The first components of a log of pairs. */
  ghost function Indexes<T>(log: seq<(nat, T)>): set<nat> {
    set k | 0 <= k < |log| :: log[k].0
  }

  ghost predicate DistinctIndexes<T>(log: seq<(nat, T)>) {
    forall j, k :: 0 <= j < k < |log| ==> log[j].0 != log[k].0
  }

  lemma IndexesAppend<T>(log: seq<(nat, T)>, entry: (nat, T))
    ensures Indexes(log + [entry]) == Indexes(log) + {entry.0}
  {
    var longer := log + [entry];
    assert longer[|log|] == entry;
    forall i | i in Indexes(log)
      ensures i in Indexes(longer)
    {
      var k :| 0 <= k < |log| && log[k].0 == i;
      assert longer[k].0 == i;
    }
  }

  lemma {:induction false} DistinctCount<T>(log: seq<(nat, T)>)
    requires DistinctIndexes(log)
    ensures |Indexes(log)| == |log|
  {
    if log == [] {
      assert Indexes(log) == {};
    } else {
      var front, last := log[..|log| - 1], log[|log| - 1];
      DistinctCount(front);
      IndexesAppend(front, last);
      assert front + [last] == log;
      assert last.0 !in Indexes(front);
    }
  }

  /** Pigeonhole: n distinct indexes below n are all the indexes below n. */
  lemma DistinctAndFullCovers<T>(log: seq<(nat, T)>, n: nat)
    requires DistinctIndexes(log) && Indexes(log) <= Below(n)
    ensures |log| <= n
    ensures |log| == n <==> Indexes(log) == Below(n)
  {
    DistinctCount(log);
    var missing := Below(n) - Indexes(log);
    assert Below(n) == Indexes(log) + missing;
    assert |Below(n)| == |Indexes(log)| + |missing|;
    if |log| == n {
      assert missing == {};
    }
  }

  // ----- ranks of the workers of a pool -----

  function PoolRank<W>(rank: W -> nat, workers: seq<W>): nat {
    if workers == [] then 0 else rank(workers[0]) + PoolRank(rank, workers[1..])
  }

  lemma {:induction false} PoolRankUpdate<W>(rank: W -> nat, workers: seq<W>, w: nat, worker: W)
    requires w < |workers|
    ensures PoolRank(rank, workers[w := worker]) == PoolRank(rank, workers) - rank(workers[w]) + rank(worker)
  {
    if w == 0 {
      assert workers[w := worker][1..] == workers[1..];
    } else {
      PoolRankUpdate(rank, workers[1..], w - 1, worker);
      assert workers[w := worker][1..] == workers[1..][w - 1 := worker];
    }
  }

  /** A pool in which every worker has rank 1. */
  lemma {:induction false} IdlePoolRank<W>(rank: W -> nat, workers: seq<W>)
    requires forall w :: 0 <= w < |workers| ==> rank(workers[w]) == 1
    ensures PoolRank(rank, workers) == |workers|
  {
    if workers != [] {
      IdlePoolRank(rank, workers[1..]);
    }
  }

  lemma SplitAround<T>(s: seq<T>, i: nat, x: T)
    requires i < |s|
    ensures s == s[..i] + ([s[i]] + s[i + 1..])
    ensures s[i := x] == s[..i] + ([x] + s[i + 1..])
  {
  }

  lemma Associative<T>(a: seq<T>, b: seq<T>, c: seq<T>)
    ensures (a + b) + c == a + (b + c)
  {
  }
}
