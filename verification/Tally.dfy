/** Totals over a sequence of threads (or tasks): how much of a resource they hold
    together. Updating one thread changes a total by the
    difference of its old and new share, which is all a step system needs. */
module Tally {

  ghost function Sum<T>(share: T -> nat, ts: seq<T>): nat {
    if ts == [] then 0 else share(ts[0]) + Sum(share, ts[1..])
  }

  lemma {:induction false} SumUpdate<T>(share: T -> nat, ts: seq<T>, i: nat, x: T)
    requires i < |ts|
    ensures Sum(share, ts[i := x]) + share(ts[i]) == Sum(share, ts) + share(x)
  {
    if i == 0 {
      assert ts[0 := x][1..] == ts[1..];
    } else {
      assert ts[i := x][1..] == ts[1..][i - 1 := x];
      SumUpdate(share, ts[1..], i - 1, x);
    }
  }

  /** A total is at least any one share. */
  lemma {:induction false} SumHasShare<T>(share: T -> nat, ts: seq<T>, i: nat)
    requires i < |ts|
    ensures Sum(share, ts) >= share(ts[i])
  {
    if i > 0 { SumHasShare(share, ts[1..], i - 1); }
  }

  /** If every thread's share under `a` is bounded by its share under `b`, so are the totals;
      a thread with slack in its share leaves slack in the total. */
  lemma {:induction false} SumBelow<T>(a: T -> nat, b: T -> nat, ts: seq<T>, i: nat)
    requires forall k | 0 <= k < |ts| :: a(ts[k]) <= b(ts[k])
    ensures Sum(a, ts) <= Sum(b, ts)
    ensures i < |ts| ==> Sum(a, ts) + (b(ts[i]) - a(ts[i])) <= Sum(b, ts)
  {
    if ts != [] {
      assert forall k | 0 <= k < |ts[1..]| :: ts[1..][k] == ts[k + 1];
      SumBelow(a, b, ts[1..], if i == 0 then 0 else i - 1);
    }
  }

  /** A positive total comes from some thread with a positive share. */
  lemma {:induction false} SumWitness<T>(share: T -> nat, ts: seq<T>) returns (i: nat)
    requires Sum(share, ts) > 0
    ensures i < |ts| && share(ts[i]) > 0
  {
    if share(ts[0]) > 0 {
      i := 0;
    } else {
      i := SumWitness(share, ts[1..]);
      i := i + 1;
    }
  }

  /** If nobody has a share, the total is zero. */
  lemma {:induction false} SumOfNone<T>(share: T -> nat, ts: seq<T>)
    requires forall k | 0 <= k < |ts| :: share(ts[k]) == 0
    ensures Sum(share, ts) == 0
  {
    if ts != [] {
      assert forall k | 0 <= k < |ts[1..]| :: ts[1..][k] == ts[k + 1];
      SumOfNone(share, ts[1..]);
    }
  }

  lemma {:induction false} SumSplits<T>(whole: T -> nat, a: T -> nat, b: T -> nat, ts: seq<T>)
    requires forall k | 0 <= k < |ts| :: whole(ts[k]) == a(ts[k]) + b(ts[k])
    ensures Sum(whole, ts) == Sum(a, ts) + Sum(b, ts)
  {
    if ts != [] {
      assert forall k | 0 <= k < |ts[1..]| :: ts[1..][k] == ts[k + 1];
      SumSplits(whole, a, b, ts[1..]);
    }
  }

  /** Two different threads together hold no more than the total. */
  lemma {:induction false} SumHasBoth<T>(share: T -> nat, ts: seq<T>, i: nat, j: nat)
    requires i < j < |ts|
    ensures share(ts[i]) + share(ts[j]) <= Sum(share, ts)
  {
    if i == 0 {
      SumHasShare(share, ts[1..], j - 1);
    } else {
      SumHasBoth(share, ts[1..], i - 1, j - 1);
    }
  }
}
