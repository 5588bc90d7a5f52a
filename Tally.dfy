/**
  The posture tally that three components build in the same way: a
  `Record<string, number>` filled in a `forEach` loop with
  `counts[p] = (counts[p] || 0) + 1`, read back with `Object.entries` /
  `Object.values` (insertion order), reduced to a total, and sorted by
  descending count to pick the most common posture.

  The record is modelled by its insertion-ordered key list and a map from
  key to count. Object keys that look like array indices ("0", "1", ...),
  which JavaScript enumerates first, do not occur among posture labels and
  are not modelled.
 */
module Tally {

  import opened Wrappers

  /** Index of the first occurrence of k in xs, or |xs| when k does not occur. */
  function FirstIndex(xs: seq<string>, k: string): (i: nat)
    ensures i <= |xs|
    ensures i < |xs| <==> k in xs
    ensures i < |xs| ==> xs[i] == k && k !in xs[..i]
  {
    if xs == [] then 0
    else if xs[0] == k then 0
    else
      assert xs[1..][..FirstIndex(xs[1..], k)] == xs[..1 + FirstIndex(xs[1..], k)][1..];
      1 + FirstIndex(xs[1..], k)
  }

  /**
    keys and counts are what the tally loop leaves after reading xs: one key
    for each distinct element, in order of first appearance, with the number
    of times it occurs.
   */
  ghost predicate IsTallyOf(xs: seq<string>, keys: seq<string>, counts: map<string, nat>) {
    && (forall k :: k in counts <==> k in xs)
    && (forall k :: k in keys <==> k in xs)
    && (forall k :: k in counts ==> counts[k] == multiset(xs)[k])
    && (forall i, j :: 0 <= i < j < |keys| ==> FirstIndex(xs, keys[i]) < FirstIndex(xs, keys[j]))
  }

  lemma FirstIndexAppend(xs: seq<string>, x: string, k: string)
    ensures k in xs ==> FirstIndex(xs + [x], k) == FirstIndex(xs, k)
    ensures k !in xs && k == x ==> FirstIndex(xs + [x], k) == |xs|
  {
    if xs != [] && xs[0] != k {
      assert (xs + [x])[1..] == xs[1..] + [x];
      FirstIndexAppend(xs[1..], x, k);
    }
  }

  /**
    The `forEach` loop: for each element, bump its count, adding it as the
    newest key the first time it is seen.
   */
  method CountKeys(xs: seq<string>) returns (keys: seq<string>, counts: map<string, nat>)
    ensures IsTallyOf(xs, keys, counts)
  {
    keys, counts := [], map[];
    for i := 0 to |xs|
      invariant IsTallyOf(xs[..i], keys, counts)
    {
      var k := xs[i];
      ghost var prefix := xs[..i];
      assert xs[..i + 1] == prefix + [k];
      forall j | 0 <= j < |keys| ensures FirstIndex(xs[..i + 1], keys[j]) == FirstIndex(prefix, keys[j]) {
        FirstIndexAppend(prefix, k, keys[j]);
      }
      if k in counts {
        counts := counts[k := counts[k] + 1];
      } else {
        FirstIndexAppend(prefix, k, k);
        keys := keys + [k];
        counts := counts[k := 1];
      }
    }
    assert xs[..|xs|] == xs;
  }

  /** The keys of a tally are pairwise distinct. */
  lemma TallyKeysDistinct(xs: seq<string>, keys: seq<string>, counts: map<string, nat>)
    requires IsTallyOf(xs, keys, counts)
    ensures forall i, j :: 0 <= i < j < |keys| ==> keys[i] != keys[j]
  {
  }

  /** Every key has a count of at least one. */
  lemma TallyCountsPositive(xs: seq<string>, keys: seq<string>, counts: map<string, nat>, k: string)
    requires IsTallyOf(xs, keys, counts)
    requires k in keys
    ensures k in counts && counts[k] >= 1
  {
  }

  // ---------------------------------------------------------------- total

  /** `Object.values(counts).reduce((a, b) => a + b, 0)`, in key order. */
  function SumCounts(keys: seq<string>, counts: map<string, nat>): nat
    requires forall k :: k in keys ==> k in counts
  {
    if keys == [] then 0 else counts[keys[0]] + SumCounts(keys[1..], counts)
  }

  function SumMultiplicities(keys: seq<string>, m: multiset<string>): nat
  {
    if keys == [] then 0 else m[keys[0]] + SumMultiplicities(keys[1..], m)
  }

  lemma {:induction false} SumMultiplicitiesAdd(keys: seq<string>, m: multiset<string>, x: string)
    requires forall i, j :: 0 <= i < j < |keys| ==> keys[i] != keys[j]
    ensures SumMultiplicities(keys, m + multiset{x}) == SumMultiplicities(keys, m) + (if x in keys then 1 else 0)
  {
    if keys != [] {
      SumMultiplicitiesAdd(keys[1..], m, x);
      assert x in keys <==> x == keys[0] || x in keys[1..];
      assert keys[0] !in keys[1..];
    }
  }

  lemma {:induction false} SumMultiplicitiesCover(xs: seq<string>, keys: seq<string>)
    requires forall i, j :: 0 <= i < j < |keys| ==> keys[i] != keys[j]
    requires forall x :: x in xs ==> x in keys
    ensures SumMultiplicities(keys, multiset(xs)) == |xs|
  {
    if xs != [] {
      var init := xs[..|xs| - 1];
      assert xs == init + [xs[|xs| - 1]];
      SumMultiplicitiesCover(init, keys);
      SumMultiplicitiesAdd(keys, multiset(init), xs[|xs| - 1]);
    } else {
      SumMultiplicitiesEmpty(keys);
    }
  }

  lemma {:induction false} SumMultiplicitiesEmpty(keys: seq<string>)
    ensures SumMultiplicities(keys, multiset{}) == 0
  {
    if keys != [] {
      SumMultiplicitiesEmpty(keys[1..]);
    }
  }

  lemma {:induction false} SumCountsIsMultiplicities(keys: seq<string>, counts: map<string, nat>, m: multiset<string>)
    requires forall k :: k in keys ==> k in counts && counts[k] == m[k]
    ensures SumCounts(keys, counts) == SumMultiplicities(keys, m)
  {
    if keys != [] {
      SumCountsIsMultiplicities(keys[1..], counts, m);
    }
  }

  /** The counts of a tally add up to the number of elements tallied. */
  lemma TallyTotal(xs: seq<string>, keys: seq<string>, counts: map<string, nat>)
    requires IsTallyOf(xs, keys, counts)
    ensures SumCounts(keys, counts) == |xs|
  {
    TallyKeysDistinct(xs, keys, counts);
    SumCountsIsMultiplicities(keys, counts, multiset(xs));
    SumMultiplicitiesCover(xs, keys);
  }

  // ---------------------------------------------------------------- most common

  /**
    The index of the entry that a stable sort by descending count puts first:
    the earliest entry among those with the highest count.
   */
  function LeaderIndex(keys: seq<string>, counts: map<string, nat>): (r: nat)
    requires keys != []
    requires forall k :: k in keys ==> k in counts
    ensures r < |keys|
    ensures forall i :: 0 <= i < |keys| ==> counts[keys[i]] <= counts[keys[r]]
    ensures forall i :: 0 <= i < r ==> counts[keys[i]] < counts[keys[r]]
  {
    if |keys| == 1 then 0
    else
      var m := 1 + LeaderIndex(keys[1..], counts);
      if counts[keys[0]] >= counts[keys[m]] then 0 else m
  }

  /** `Object.entries(counts).sort((a, b) => b[1] - a[1])[0]?.[0]`: None when nothing was tallied. */
  function Leader(keys: seq<string>, counts: map<string, nat>): Option<string>
    requires forall k :: k in keys ==> k in counts
  {
    if keys == [] then None else Some(keys[LeaderIndex(keys, counts)])
  }

  /**
    p is the most common element of xs: nothing occurs more often, and every
    element that occurs as often first appears no earlier than p.
   */
  ghost predicate IsModeOf(xs: seq<string>, p: string) {
    && p in xs
    && (forall q :: q in xs ==> multiset(xs)[q] <= multiset(xs)[p])
    && (forall q :: q in xs && multiset(xs)[q] == multiset(xs)[p] ==> FirstIndex(xs, p) <= FirstIndex(xs, q))
  }

  /** The leader of a tally is the most common element, and there is one unless nothing was tallied. */
  lemma LeaderIsMode(xs: seq<string>, keys: seq<string>, counts: map<string, nat>)
    requires IsTallyOf(xs, keys, counts)
    ensures Leader(keys, counts).None? <==> xs == []
    ensures Leader(keys, counts).Some? ==> IsModeOf(xs, Leader(keys, counts).value)
  {
    if xs != [] {
      assert xs[0] in keys;
    }
    if keys != [] {
      var r := LeaderIndex(keys, counts);
      var p := keys[r];
      forall q | q in xs
        ensures multiset(xs)[q] <= multiset(xs)[p]
        ensures multiset(xs)[q] == multiset(xs)[p] ==> FirstIndex(xs, p) <= FirstIndex(xs, q)
      {
        assert q in keys;
        var j :| 0 <= j < |keys| && keys[j] == q;
        assert counts[keys[j]] <= counts[p];
        if counts[q] == counts[p] && j != r {
          assert r < j;
        }
      }
    }
  }

  /** There is at most one most common element, so every component that picks it agrees. */
  lemma ModeUnique(xs: seq<string>, p: string, q: string)
    requires IsModeOf(xs, p) && IsModeOf(xs, q)
    ensures p == q
  {
  }

  // ---------------------------------------------------------------- percentages

  /**
    `total ? Math.round(count / total * 100) : 0`, in exact arithmetic:
    the nearest integer to 100·count/total, halves rounded up, and 0 rather
    than a division by zero when nothing was counted.
   */
  function Percent(count: nat, total: nat): (p: nat)
    ensures total == 0 ==> p == 0
    ensures total > 0 ==> 2 * total * p <= 200 * count + total < 2 * total * (p + 1)
    ensures count <= total ==> p <= 100
  {
    if total == 0 then 0
    else
      var n, d := 200 * count + total, 2 * total;
      DivBounds(n, d);
      if count <= total then
        assert n < d * 101;
        ProductOrder(d, n / d, 101);
        n / d
      else
        n / d
  }

  lemma DivBounds(n: nat, d: nat)
    requires d > 0
    ensures d * (n / d) <= n < d * (n / d + 1)
  {
    assert n == d * (n / d) + n % d;
  }

  lemma ProductOrder(d: nat, a: nat, b: nat)
    requires d > 0 && d * a < d * b
    ensures a < b
  {
  }
}
