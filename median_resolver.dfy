/** The median resolver. A tally records, for one candidate, how many judges
    gave each mention; it is a vector indexed by the mention's position on
    the scale, position 0 being the best mention and the last position the
    worst. */
module MedianResolver {

  type Tally = seq<nat>

  /** Number of judgments recorded in a tally: neither the best nor the
      worst mention has more. */
  function Total(t: Tally): (n: nat)
    ensures |t| > 0 ==> t[0] <= n && t[|t| - 1] <= n
  {
    if |t| == 0 then 0 else t[0] + Total(t[1..])
  }

  /** Number of judgments strictly worse than the mention at position `p`. */
  function Below(t: Tally, p: nat): nat
    requires p < |t|
  {
    Total(t[p + 1..])
  }

  /** The 0-based rank of the lower median among the judgments ordered from
      the worst mention to the best: floor((total - 1) / 2). */
  function MedianIndex(t: Tally): nat
    requires Total(t) > 0
  {
    (Total(t) - 1) / 2
  }

  lemma TotalFrom(t: Tally, p: nat)
    requires p < |t|
    ensures Total(t[p..]) == t[p] + Below(t, p)
  {
    assert t[p..][1..] == t[p + 1..];
  }

  lemma {:induction false} TotalAppend(s: Tally, x: nat)
    ensures Total(s + [x]) == Total(s) + x
  {
    if s != [] {
      assert (s + [x])[1..] == s[1..] + [x];
      TotalAppend(s[1..], x);
    }
  }

  /** A tally is empty exactly when every count is zero. */
  lemma {:induction false} TotalZero(t: Tally)
    ensures Total(t) == 0 <==> forall p :: 0 <= p < |t| ==> t[p] == 0
  {
    if t != [] {
      TotalZero(t[1..]);
      assert forall p :: 1 <= p < |t| ==> t[p] == t[1..][p - 1];
    }
  }

  /** Suffix totals shrink as the suffix starts further along, by at least
      the counts skipped. */
  lemma {:induction false} TotalSuffixMonotone(t: Tally, i: nat, j: nat)
    requires i <= j <= |t|
    ensures Total(t[i..]) >= Total(t[j..])
    ensures i < j ==> Total(t[i..]) >= t[i] + Total(t[j..])
    decreases j - i
  {
    if i < j {
      TotalFrom(t, i);
      TotalSuffixMonotone(t, i + 1, j);
    }
  }

  /** `m` is a median of `t`: the median index falls in the range of ranks
      held by the mention at position `m` when counting from the worst. */
  predicate Brackets(t: Tally, m: nat)
    requires Total(t) > 0
  {
    m < |t| && Below(t, m) <= MedianIndex(t) < Below(t, m) + t[m]
  }

  /** The walk from the worst mention towards the best, stopping at the first
      mention whose range of ranks holds the median index. */
  function Walk(t: Tally, p: nat): (m: nat)
    requires p < |t| && Total(t) > 0 && Below(t, p) <= MedianIndex(t)
    ensures m <= p && Brackets(t, m)
  {
    TotalFrom(t, p);
    if Below(t, p) <= MedianIndex(t) < Below(t, p) + t[p] then p
    else
      assert t == t[0..];
      TotalFrom(t, p - 1);
      Walk(t, p - 1)
  }

  /** `get_median`: an empty tally gives the worst mention; otherwise the
      result is the lower median, whose count is therefore positive. */
  function Median(t: Tally): (m: nat)
    requires |t| > 0
    ensures m < |t|
    ensures Total(t) == 0 ==> m == |t| - 1
    ensures Total(t) > 0 ==> Brackets(t, m) && t[m] > 0
  {
    if Total(t) == 0 then |t| - 1
    else
      assert t[|t|..] == [];
      Walk(t, |t| - 1)
  }

  /** At most one position brackets the median index: the ranges of ranks
      of distinct positions do not overlap. */
  lemma BracketsUnique(t: Tally, m: nat, k: nat)
    requires Total(t) > 0 && Brackets(t, m) && Brackets(t, k)
    ensures m == k
  {
    if m < k {
      TotalSuffixMonotone(t, m + 1, k);
      TotalFrom(t, k);
    } else if k < m {
      TotalSuffixMonotone(t, k + 1, m);
      TotalFrom(t, m);
    }
  }

  /** The bracketing property determines the median. */
  lemma MedianUnique(t: Tally, m: nat)
    requires |t| > 0 && Total(t) > 0 && Brackets(t, m)
    ensures m == Median(t)
  {
    BracketsUnique(t, m, Median(t));
  }

  /** `is_tally_empty`: scans the counts and stops at the first positive one. */
  method IsTallyEmpty(t: Tally) returns (empty: bool)
    ensures empty <==> Total(t) == 0
  {
    TotalZero(t);
    for p := 0 to |t|
      invariant forall q :: 0 <= q < p ==> t[q] == 0
    {
      if 0 < t[p] {
        return false;
      }
    }
    return true;
  }

  /** `get_median`, as the source computes it: one pass to add up the counts,
      then a walk from the worst mention to the best with a running count. */
  method GetMedian(t: Tally) returns (median: nat)
    requires |t| > 0
    ensures median == Median(t)
  {
    var count := 0;
    for p := 0 to |t|
      invariant count == Total(t[..p])
    {
      assert t[..p + 1] == t[..p] + [t[p]];
      TotalAppend(t[..p], t[p]);
      count := count + t[p];
    }
    assert t[..|t|] == t;

    median := |t| - 1;
    if count == 0 {
      return;
    }

    var medianIndex := (count - 1) / 2;
    var current := 0;
    var p := |t|;
    while p > 0
      invariant 0 <= p <= |t|
      invariant current == Total(t[p..])
      invariant current <= medianIndex
    {
      p := p - 1;
      var mentionMin := current;
      TotalFrom(t, p);
      current := current + t[p];
      var mentionMax := current;
      if mentionMin <= medianIndex < mentionMax {
        median := p;
        MedianUnique(t, median);
        return;
      }
    }
    assert false;
  }
}
