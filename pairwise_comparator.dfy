/** The pairwise comparator: compares two candidates' tallies by their
    medians and, when these coincide, by removing the shared median from
    scratch copies of both tallies until the medians differ. The result is an
    integer whose sign orders the two candidates: negative when the first one
    ranks higher. */
module PairwiseComparator {
  import opened GradeScale
  import opened MedianResolver

  /** Removes one judgment of the mention at position `p`. */
  function Dec(t: Tally, p: nat): (r: Tally)
    requires p < |t| && t[p] > 0
    ensures |r| == |t| && Total(r) == Total(t) - 1
  {
    DecTotal(t, p);
    t[p := t[p] - 1]
  }

  lemma {:induction false} DecTotal(t: Tally, p: nat)
    requires p < |t| && t[p] > 0
    ensures Total(t[p := t[p] - 1]) == Total(t) - 1
  {
    if p > 0 {
      assert t[p := t[p] - 1][1..] == t[1..][p - 1 := t[p] - 1];
      DecTotal(t[1..], p - 1);
    }
  }

  /** The tie-break loop of `sort_two_candidates`, on values: it stops with 0
      as soon as either tally is empty, and otherwise either finds differing
      medians or removes the shared one from both and goes on. */
  function TieBreak(a: Tally, b: Tally): (r: int)
    requires |a| == |b| > 0
    ensures -|a| < r < |a|
    ensures Total(a) > 0 && Total(b) > 0 && Median(a) != Median(b) ==>
              r != 0 && (r < 0 <==> Median(a) < Median(b))
    decreases Total(a)
  {
    if Total(a) == 0 || Total(b) == 0 then 0
    else
      var ma, mb := Median(a), Median(b);
      if ma == mb then TieBreak(Dec(a, ma), Dec(b, mb)) else ma - mb
  }

  /** The number of shared medians the tie-break removes before it stops:
      at most the size of either tally. */
  function TieBreakRounds(a: Tally, b: Tally): (n: nat)
    requires |a| == |b| > 0
    ensures n <= Total(a) && n <= Total(b)
    decreases Total(a)
  {
    if Total(a) == 0 || Total(b) == 0 then 0
    else
      var ma, mb := Median(a), Median(b);
      if ma == mb then 1 + TieBreakRounds(Dec(a, ma), Dec(b, mb)) else 0
  }

  /** `sort_two_candidates` on two tallies: differing medians decide at once
      (the better median ranks first); equal medians go to the tie-break. */
  function Compare(a: Tally, b: Tally): (r: int)
    requires |a| == |b| > 0
    ensures -|a| < r < |a|
    ensures Median(a) != Median(b) ==> r != 0 && (r < 0 <==> Median(a) < Median(b))
  {
    var ma, mb := Median(a), Median(b);
    if ma == mb then TieBreak(a, b) else ma - mb
  }

  /** Swapping the two candidates negates the tie-break. */
  lemma {:induction false} TieBreakAntisymmetric(a: Tally, b: Tally)
    requires |a| == |b| > 0
    ensures TieBreak(b, a) == -TieBreak(a, b)
    decreases Total(a)
  {
    if Total(a) > 0 && Total(b) > 0 && Median(a) == Median(b) {
      TieBreakAntisymmetric(Dec(a, Median(a)), Dec(b, Median(b)));
    }
  }

  /** Swapping the two candidates negates the comparison. */
  lemma CompareAntisymmetric(a: Tally, b: Tally)
    requires |a| == |b| > 0
    ensures Compare(b, a) == -Compare(a, b)
  {
    TieBreakAntisymmetric(a, b);
  }

  /** A tally compares equal to itself: the tie-break strips it down to empty
      without finding a difference. */
  lemma {:induction false} TieBreakReflexive(a: Tally)
    requires |a| > 0
    ensures TieBreak(a, a) == 0
    decreases Total(a)
  {
    if Total(a) > 0 {
      TieBreakReflexive(Dec(a, Median(a)));
    }
  }

  lemma CompareReflexive(a: Tally)
    requires |a| > 0
    ensures Compare(a, a) == 0
  {
    TieBreakReflexive(a);
  }

  // ---------------------------------------------------------------------
  // Tallies of the same size: the case of every tally `deliberate` builds,
  // since each judge grades every candidate once.

  /** Between tallies of the same size the tie-break is the whole comparison:
      both become empty together, and then their medians agree. */
  lemma TieBreakIsCompare(a: Tally, b: Tally)
    requires |a| == |b| > 0 && Total(a) == Total(b)
    ensures TieBreak(a, b) == Compare(a, b)
  {
  }

  /** Between tallies of the same size with a common median, comparing is
      comparing what remains once that median is removed from both. */
  lemma CompareStep(a: Tally, b: Tally)
    requires |a| == |b| > 0 && Total(a) == Total(b) > 0 && Median(a) == Median(b)
    ensures Compare(a, b) == Compare(Dec(a, Median(a)), Dec(b, Median(b)))
  {
    TieBreakIsCompare(Dec(a, Median(a)), Dec(b, Median(b)));
  }

  /** Between tallies of the same size, comparing equal means being equal: the
      tie-break only reports 0 for identical distributions. */
  lemma {:induction false} CompareZeroIffEqual(a: Tally, b: Tally)
    requires |a| == |b| > 0 && Total(a) == Total(b)
    ensures Compare(a, b) == 0 <==> a == b
    decreases Total(a)
  {
    if Total(a) == 0 {
      TotalZero(a);
      TotalZero(b);
      assert a == b;
      CompareReflexive(a);
    } else if Median(a) == Median(b) {
      var m := Median(a);
      CompareStep(a, b);
      CompareZeroIffEqual(Dec(a, m), Dec(b, m));
      DecInjective(a, b, m);
    }
  }

  /** Removing the same judgment from two tallies keeps them apart. */
  lemma DecInjective(a: Tally, b: Tally, p: nat)
    requires |a| == |b| && p < |a| && a[p] > 0 && b[p] > 0
    ensures Dec(a, p) == Dec(b, p) <==> a == b
  {
    if Dec(a, p) == Dec(b, p) {
      assert forall q :: 0 <= q < |a| ==> a[q] == Dec(a, p)[q] + (if q == p then 1 else 0);
      assert forall q :: 0 <= q < |b| ==> b[q] == Dec(b, p)[q] + (if q == p then 1 else 0);
    }
  }

  /** Between tallies of the same size, "ranks no lower than" is transitive;
      with antisymmetry and reflexivity this makes the comparator a total
      preorder, so a stable sort by it is well defined. */
  lemma {:induction false} CompareTransitive(a: Tally, b: Tally, c: Tally)
    requires |a| == |b| == |c| > 0 && Total(a) == Total(b) == Total(c)
    requires Compare(a, b) <= 0 && Compare(b, c) <= 0
    ensures Compare(a, c) <= 0
    decreases Total(a)
  {
    var ma, mb, mc := Median(a), Median(b), Median(c);
    if Total(a) > 0 && ma == mb == mc {
      CompareStep(a, b);
      CompareStep(b, c);
      CompareStep(a, c);
      CompareTransitive(Dec(a, ma), Dec(b, mb), Dec(c, mc));
    } else if Total(a) == 0 {
      TotalZero(a);
      TotalZero(c);
      assert a == c;
      CompareReflexive(a);
    }
  }

  /** Without equal sizes the tie-break's "either copy empty gives 0" rule is
      not transitive: an empty tally ties with two tallies that the
      tie-break tells apart. */
  lemma UnequalSizesBreakTransitivity()
    ensures var a, b, c := [1, 2], [0, 0], [0, 3];
            Compare(a, b) == 0 && Compare(b, c) == 0 && Compare(a, c) < 0
  {
    var a, b, c := [1, 2], [0, 0], [0, 3];
    assert Median(a) == 1 by { MedianUnique(a, 1); }
    assert Median(c) == 1 by { MedianUnique(c, 1); }
    var a1, c1 := Dec(a, 1), Dec(c, 1);
    assert a1 == [1, 1] && c1 == [0, 2];
    assert Median(a1) == 1 by { MedianUnique(a1, 1); }
    assert Median(c1) == 1 by { MedianUnique(c1, 1); }
    var a2, c2 := Dec(a1, 1), Dec(c1, 1);
    assert a2 == [1, 0] && c2 == [0, 1];
    assert Median(a2) == 0 by { MedianUnique(a2, 0); }
    assert Median(c2) == 1 by { MedianUnique(c2, 1); }
  }

  // ---------------------------------------------------------------------
  // The comparator as the source runs it.

  /** One round of the tie-break on two non-empty tallies with a common
      median: the shared median is removed from both. */
  lemma TieBreakShared(a: Tally, b: Tally)
    requires |a| == |b| > 0 && Total(a) > 0 && Total(b) > 0 && Median(a) == Median(b)
    ensures TieBreak(a, b) == TieBreak(Dec(a, Median(a)), Dec(b, Median(b)))
    ensures TieBreakRounds(a, b) == 1 + TieBreakRounds(Dec(a, Median(a)), Dec(b, Median(b)))
  {
  }

  /** The round of the tie-break that finds differing medians ends it. */
  lemma TieBreakDiffers(a: Tally, b: Tally)
    requires |a| == |b| > 0 && Total(a) > 0 && Total(b) > 0 && Median(a) != Median(b)
    ensures TieBreak(a, b) == Median(a) as int - Median(b)
    ensures TieBreakRounds(a, b) == 0
  {
  }

  /** `decrement_mention`: removes one judgment of a mention in place; the
      source asserts that the count is positive. */
  method DecrementMention(tally: TallyDict, p: nat)
    requires p < |tally.counts| && tally.counts[p] > 0
    modifies tally
    ensures tally.counts == Dec(old(tally.counts), p)
  {
    tally.counts := tally.counts[p := tally.counts[p] - 1];
  }

  /** A tally the tie-break updates in place: the source's dictionary from
      mention to count, its counts listed by position on the scale. */
  class TallyDict {
    var counts: Tally

    /** `copy.deepcopy` of a tally: a fresh object holding the same counts. */
    constructor (t: Tally)
      ensures counts == t
    {
      counts := t;
    }
  }

  /** `sort_two_candidates`: looks both candidates up in the table, compares
      their medians and, on a tie, runs the tie-break on private copies, so
      the table itself is never written. */
  method SortTwoCandidates(tallyOf: map<string, Tally>, mentions: seq<string>, ca: string, cb: string)
    returns (r: int)
    requires Distinct(mentions)
    requires ca in tallyOf && cb in tallyOf
    requires |tallyOf[ca]| == |tallyOf[cb]| == |mentions| > 0
    ensures r == Compare(tallyOf[ca], tallyOf[cb])
  {
    var toca, tocb := tallyOf[ca], tallyOf[cb];
    var mdca := GetMedian(toca);
    var mdcb := GetMedian(tocb);

    var positions := GetPositions(mentions);

    if mdca == mdcb {
      ghost var rounds;
      r, rounds := BreakTie(toca, tocb, mentions, positions);
    } else {
      assert positions[mentions[mdca]] == mdca && positions[mentions[mdcb]] == mdcb;
      r := positions[mentions[mdca]] as int - positions[mentions[mdcb]];
    }
  }

  /** The tie-break loop of `sort_two_candidates` on deep copies of the two
      tallies. The decrement's assertion always holds, since the shared
      median of a non-empty copy has a positive count; the loop runs at most
      as many rounds as either tally has judgments. */
  method BreakTie(toca: Tally, tocb: Tally, mentions: seq<string>, positions: map<string, nat>)
    returns (r: int, ghost rounds: nat)
    requires Distinct(mentions) && |toca| == |tocb| == |mentions| > 0
    requires forall i :: 0 <= i < |mentions| ==> mentions[i] in positions && positions[mentions[i]] == i
    ensures r == TieBreak(toca, tocb)
    ensures rounds == TieBreakRounds(toca, tocb) && rounds <= Total(toca) && rounds <= Total(tocb)
  {
    var cotoca := new TallyDict(toca);
    var cotocb := new TallyDict(tocb);
    rounds := 0;
    var emptyA := IsTallyEmpty(cotoca.counts);
    var emptyB := IsTallyEmpty(cotocb.counts);
    while !emptyA && !emptyB
      invariant cotoca != cotocb
      invariant |cotoca.counts| == |cotocb.counts| == |mentions|
      invariant emptyA <==> Total(cotoca.counts) == 0
      invariant emptyB <==> Total(cotocb.counts) == 0
      invariant TieBreak(cotoca.counts, cotocb.counts) == TieBreak(toca, tocb)
      invariant rounds + TieBreakRounds(cotoca.counts, cotocb.counts) == TieBreakRounds(toca, tocb)
      invariant rounds + Total(cotoca.counts) == Total(toca)
      decreases Total(cotoca.counts)
    {
      var nemdca := GetMedian(cotoca.counts);
      var nemdcb := GetMedian(cotocb.counts);
      if nemdca == nemdcb {
        TieBreakShared(cotoca.counts, cotocb.counts);
        DecrementMention(cotoca, nemdca);
        DecrementMention(cotocb, nemdcb);
        rounds := rounds + 1;
      } else {
        TieBreakDiffers(cotoca.counts, cotocb.counts);
        return positions[mentions[nemdca]] as int - positions[mentions[nemdcb]], rounds;
      }
      emptyA := IsTallyEmpty(cotoca.counts);
      emptyB := IsTallyEmpty(cotocb.counts);
    }
    return 0, rounds;
  }
}
