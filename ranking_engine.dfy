/** The ranking engine: `sort_candidates` orders the candidates with Python's
    stable `sorted`, the key built from `sort_two_candidates` by
    `cmp_to_key`. The model is a stable insertion sort: a candidate goes
    before the first one that does not rank strictly higher than it. */
module RankingEngine {
  import opened GradeScale
  import opened MedianResolver
  import opened PairwiseComparator

  /** Candidate `c` has a tally over the whole scale. */
  predicate HasTally(tallies: map<string, Tally>, c: string, mentions: seq<string>)
  {
    c in tallies && |tallies[c]| == |mentions|
  }

  /** Every candidate to rank has a tally over the whole, non-empty scale. */
  predicate Tallied(tallies: map<string, Tally>, cands: seq<string>, mentions: seq<string>)
  {
    |mentions| > 0 && forall i :: 0 <= i < |cands| ==> HasTally(tallies, cands[i], mentions)
  }

  /** Every candidate's tally holds `n` judgments. */
  predicate Uniform(tallies: map<string, Tally>, cands: seq<string>, n: nat)
    requires forall i :: 0 <= i < |cands| ==> cands[i] in tallies
  {
    forall i :: 0 <= i < |cands| ==> Total(tallies[cands[i]]) == n
  }

  /** No candidate ranks strictly higher than one listed before it. */
  predicate Ranked(tallies: map<string, Tally>, s: seq<string>, mentions: seq<string>)
    requires Tallied(tallies, s, mentions)
  {
    forall i, j :: 0 <= i < j < |s| ==> Compare(tallies[s[i]], tallies[s[j]]) <= 0
  }

  /** The candidates of `s` whose tally is `t`, in the order of `s`. */
  function Tied(tallies: map<string, Tally>, s: seq<string>, t: Tally): (r: seq<string>)
    requires forall i :: 0 <= i < |s| ==> s[i] in tallies
  {
    if s == [] then []
    else (if tallies[s[0]] == t then [s[0]] else []) + Tied(tallies, s[1..], t)
  }

  /** Places `c` into `sorted` after every candidate that ranks strictly
      higher than it, and before all the others. */
  function Insert(tallies: map<string, Tally>, mentions: seq<string>, c: string, sorted: seq<string>)
    : (r: seq<string>)
    requires HasTally(tallies, c, mentions) && Tallied(tallies, sorted, mentions)
    ensures multiset(r) == multiset(sorted) + multiset{c}
    ensures forall x :: x in r <==> x == c || x in sorted
    ensures Tallied(tallies, r, mentions)
  {
    if sorted == [] then [c]
    else if Compare(tallies[sorted[0]], tallies[c]) < 0 then
      assert sorted == [sorted[0]] + sorted[1..];
      var rest := Insert(tallies, mentions, c, sorted[1..]);
      ConsTallied(tallies, mentions, sorted[0], rest);
      [sorted[0]] + rest
    else
      ConsTallied(tallies, mentions, c, sorted);
      [c] + sorted
  }

  /** A tallied candidate in front of tallied candidates. */
  lemma ConsTallied(tallies: map<string, Tally>, mentions: seq<string>, c: string, s: seq<string>)
    requires HasTally(tallies, c, mentions) && Tallied(tallies, s, mentions)
    ensures Tallied(tallies, [c] + s, mentions)
    ensures multiset([c] + s) == multiset(s) + multiset{c}
    ensures forall x :: x in [c] + s <==> x == c || x in s
  {
  }

  /** `sort_candidates`: the candidates, each occurrence kept, in ranking
      order. */
  function SortCandidates(tallies: map<string, Tally>, cands: seq<string>, mentions: seq<string>)
    : (r: seq<string>)
    requires Tallied(tallies, cands, mentions)
    ensures multiset(r) == multiset(cands)
    ensures forall x :: x in r <==> x in cands
    ensures Tallied(tallies, r, mentions)
  {
    if cands == [] then []
    else
      var rest := SortCandidates(tallies, cands[1..], mentions);
      assert cands == [cands[0]] + cands[1..];
      Insert(tallies, mentions, cands[0], rest)
  }

  /** A ranked list stays ranked under a new head that ranks no lower than
      any of its members. */
  lemma RankedCons(tallies: map<string, Tally>, mentions: seq<string>, x: string, s: seq<string>)
    requires HasTally(tallies, x, mentions) && Tallied(tallies, s, mentions)
    requires Ranked(tallies, s, mentions)
    requires forall j :: 0 <= j < |s| ==> Compare(tallies[x], tallies[s[j]]) <= 0
    ensures Tallied(tallies, [x] + s, mentions)
    ensures Ranked(tallies, [x] + s, mentions)
  {
    var r := [x] + s;
    assert forall j :: 1 <= j < |r| ==> r[j] == s[j - 1];
  }

  /** Inserting into a ranked list of same-sized tallies keeps it ranked. */
  lemma {:induction false} InsertRanked(tallies: map<string, Tally>, mentions: seq<string>, c: string,
                                        sorted: seq<string>, n: nat)
    requires HasTally(tallies, c, mentions) && Tallied(tallies, sorted, mentions)
    requires Total(tallies[c]) == n && Uniform(tallies, sorted, n)
    requires Ranked(tallies, sorted, mentions)
    ensures Ranked(tallies, Insert(tallies, mentions, c, sorted), mentions)
  {
    if sorted == [] {
    } else if Compare(tallies[sorted[0]], tallies[c]) < 0 {
      var y, tail := sorted[0], sorted[1..];
      assert forall j :: 0 <= j < |tail| ==> tail[j] == sorted[j + 1];
      var rest := Insert(tallies, mentions, c, tail);
      InsertRanked(tallies, mentions, c, tail, n);
      forall j | 0 <= j < |rest|
        ensures Compare(tallies[y], tallies[rest[j]]) <= 0
      {
        if rest[j] != c {
          assert rest[j] in tail;
        }
      }
      RankedCons(tallies, mentions, y, rest);
    } else {
      var y := sorted[0];
      CompareAntisymmetric(tallies[y], tallies[c]);
      forall j | 0 <= j < |sorted|
        ensures Compare(tallies[c], tallies[sorted[j]]) <= 0
      {
        if j > 0 {
          CompareTransitive(tallies[c], tallies[y], tallies[sorted[j]]);
        }
      }
      RankedCons(tallies, mentions, c, sorted);
    }
  }

  /** When every tally holds the same number of judgments, as in every
      deliberation, the ranking lists no candidate after one it beats. */
  lemma {:induction false} SortRanked(tallies: map<string, Tally>, cands: seq<string>,
                                      mentions: seq<string>, n: nat)
    requires Tallied(tallies, cands, mentions) && Uniform(tallies, cands, n)
    ensures Ranked(tallies, SortCandidates(tallies, cands, mentions), mentions)
  {
    if cands != [] {
      var rest := SortCandidates(tallies, cands[1..], mentions);
      SortRanked(tallies, cands[1..], mentions, n);
      forall i | 0 <= i < |rest|
        ensures Total(tallies[rest[i]]) == n
      {
        assert rest[i] in cands[1..];
        var k :| 0 <= k < |cands[1..]| && cands[1..][k] == rest[i];
        assert cands[k + 1] == rest[i];
      }
      InsertRanked(tallies, mentions, cands[0], rest, n);
    }
  }

  lemma TiedCons(tallies: map<string, Tally>, x: string, s: seq<string>, t: Tally)
    requires x in tallies && forall i :: 0 <= i < |s| ==> s[i] in tallies
    ensures tallies[x] == t ==> Tied(tallies, [x] + s, t) == [x] + Tied(tallies, s, t)
    ensures tallies[x] != t ==> Tied(tallies, [x] + s, t) == Tied(tallies, s, t)
  {
    assert ([x] + s)[1..] == s;
  }

  /** Inserting `c` adds it to the front of its tie group and leaves every
      other tie group as it was: candidates skipped over rank strictly
      higher than `c`, so none of them has the same tally. */
  lemma {:induction false} InsertTied(tallies: map<string, Tally>, mentions: seq<string>, c: string,
                                      sorted: seq<string>, t: Tally)
    requires HasTally(tallies, c, mentions) && Tallied(tallies, sorted, mentions)
    ensures tallies[c] == t ==> Tied(tallies, Insert(tallies, mentions, c, sorted), t) == [c] + Tied(tallies, sorted, t)
    ensures tallies[c] != t ==> Tied(tallies, Insert(tallies, mentions, c, sorted), t) == Tied(tallies, sorted, t)
  {
    if sorted != [] && Compare(tallies[sorted[0]], tallies[c]) < 0 {
      InsertTied(tallies, mentions, c, sorted[1..], t);
      InsertTiedPast(tallies, mentions, c, sorted, t);
    } else {
      TiedCons(tallies, c, sorted, t);
    }
  }

  /** The step of `InsertTied` where the candidate goes past the head,
      which ranks strictly higher and so has a different tally. */
  lemma InsertTiedPast(tallies: map<string, Tally>, mentions: seq<string>, c: string,
                       sorted: seq<string>, t: Tally)
    requires HasTally(tallies, c, mentions) && Tallied(tallies, sorted, mentions)
    requires sorted != [] && Compare(tallies[sorted[0]], tallies[c]) < 0
    requires Tallied(tallies, sorted[1..], mentions)
    requires tallies[c] == t ==> Tied(tallies, Insert(tallies, mentions, c, sorted[1..]), t) == [c] + Tied(tallies, sorted[1..], t)
    requires tallies[c] != t ==> Tied(tallies, Insert(tallies, mentions, c, sorted[1..]), t) == Tied(tallies, sorted[1..], t)
    ensures tallies[c] == t ==> Tied(tallies, Insert(tallies, mentions, c, sorted), t) == [c] + Tied(tallies, sorted, t)
    ensures tallies[c] != t ==> Tied(tallies, Insert(tallies, mentions, c, sorted), t) == Tied(tallies, sorted, t)
  {
    var y := sorted[0];
    var rest := Insert(tallies, mentions, c, sorted[1..]);
    assert Insert(tallies, mentions, c, sorted) == [y] + rest;
    CompareReflexive(tallies[c]);
    assert tallies[c] == t ==> tallies[y] != t;
    TiedCons(tallies, y, rest, t);
    TiedCons(tallies, y, sorted[1..], t);
    assert [y] + sorted[1..] == sorted;
  }

  /** The sort is stable: candidates with identical tallies, which are
      exactly the ones the comparator ties when every tally holds the same
      number of judgments, keep the order in which they were given. */
  lemma {:induction false} SortStable(tallies: map<string, Tally>, cands: seq<string>,
                                      mentions: seq<string>, t: Tally)
    requires Tallied(tallies, cands, mentions)
    ensures Tied(tallies, SortCandidates(tallies, cands, mentions), t) == Tied(tallies, cands, t)
  {
    if cands != [] {
      var rest := SortCandidates(tallies, cands[1..], mentions);
      SortStable(tallies, cands[1..], mentions, t);
      InsertTied(tallies, mentions, cands[0], rest, t);
    }
  }
}
