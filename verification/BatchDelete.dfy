/** A DELETE with a LIMIT: the statement both cleanup jobs repeat until it comes back short. */
module BatchDelete {
  lemma {:induction false} SubsetOfSize<T>(s: set<T>, n: nat)
    requires n <= |s|
    ensures exists b :: b <= s && |b| == n
  {
    if n == |s| {
      assert s <= s;
    } else {
      var x :| x in s;
      SubsetOfSize(s - {x}, n);
      var b :| b <= s - {x} && |b| == n;
      assert b <= s;
    }
  }

  /** As many of the removable rows as the limit allows, whichever the database picks. */
  predicate Batch<T(==)>(removable: set<T>, limit: nat, batch: set<T>) {
    batch <= removable && |batch| == if |removable| < limit then |removable| else limit
  }

  lemma BatchExists<T>(removable: set<T>, limit: nat)
    ensures exists batch :: Batch(removable, limit, batch)
  {
    var n := if |removable| < limit then |removable| else limit;
    SubsetOfSize(removable, n);
    var b :| b <= removable && |b| == n;
    assert Batch(removable, limit, b);
  }

  lemma LeftAfterBatch<T>(removable: set<T>, limit: nat, batch: set<T>)
    requires Batch(removable, limit, batch)
    ensures |removable - batch| == |removable| - |batch|
    ensures |batch| < limit ==> removable - batch == {}
  {
    assert |removable| == |removable - batch| + |batch|;
  }

  /** The loop has sent these deletes, none of which came back short, and goes on. */
  ghost predicate StillLooping<T>(removable: set<T>, limit: nat, batches: seq<set<T>>)
    decreases |batches|
  {
    batches == []
    || (Batch(removable, limit, batches[0]) && |batches[0]| >= limit
        && StillLooping(removable - batches[0], limit, batches[1..]))
  }

  ghost predicate EndsWithin<T(!new)>(removable: set<T>, limit: nat, bound: nat) {
    forall batches :: StillLooping(removable, limit, batches) ==> |batches| <= bound
  }

  lemma {:induction false} LoopIsBounded<T>(removable: set<T>, limit: nat, batches: seq<set<T>>)
    requires limit >= 1 && StillLooping(removable, limit, batches)
    ensures |batches| <= |removable|
    decreases |batches|
  {
    if batches != [] {
      LeftAfterBatch(removable, limit, batches[0]);
      LoopIsBounded(removable - batches[0], limit, batches[1..]);
    }
  }

  lemma {:induction false} EmptyBatchesGoOn<T>(removable: set<T>, batches: seq<set<T>>)
    requires forall i | 0 <= i < |batches| :: batches[i] == {}
    ensures StillLooping(removable, 0, batches)
    decreases |batches|
  {
    if batches != [] {
      EmptyBatchesGoOn(removable, batches[1..]);
      assert removable - {} == removable;
    }
  }

  /** The loop comes to an end exactly if its batch size is at least 1: batches of size 0 never come back short. */
  lemma LoopEndsIffBatchesArePositive<T(!new)>(removable: set<T>, limit: nat)
    ensures (exists bound :: EndsWithin(removable, limit, bound)) <==> limit >= 1
  {
    if limit >= 1 {
      forall batches | StillLooping(removable, limit, batches)
        ensures |batches| <= |removable|
      {
        LoopIsBounded(removable, limit, batches);
      }
      assert EndsWithin(removable, limit, |removable|);
    } else if bound :| EndsWithin(removable, limit, bound) {
      var batches: seq<set<T>> := seq(bound + 1, _ => {});
      EmptyBatchesGoOn(removable, batches);
      assert false;
    }
  }
}
