/** The deliberations of the test suite of `limaju`, on rows already split
    into cells. The suite's scale runs EXCELLENT, VERY GOOD, GOOD, SOMEWHAT
    GOOD, PASSABLE, POOR, REJECT; the scenarios hold for any scale of seven
    distinct, non-blank mentions in its place, and for any distinct
    candidate names. */
module Scenarios {
  import opened GradeScale
  import opened MedianResolver
  import opened PairwiseComparator
  import opened RankingEngine
  import opened TallyBuilder
  import opened DeliberationProperties

  /** The scale of the test suite, best mention first. */
  const TestScale: seq<string> := ["EXCELLENT", "VERY GOOD", "GOOD", "SOMEWHAT GOOD", "PASSABLE", "POOR", "REJECT"]

  /** The test suite's scale as text: one mention per indented line. */
  const TestMentions: string :=
    "\n        " + "EXCELLENT" + "\n" + "        " + "VERY GOOD" + "\n" + "        " + "GOOD"
    + "\n" + "        " + "SOMEWHAT GOOD" + "\n" + "        " + "PASSABLE" + "\n" + "        " + "POOR"
    + "\n" + "        " + "REJECT" + "\n    "

  /** The indented lines of the suite's scale text, once the text is
      stripped. */
  function TestLines(): (lines: seq<string>)
    ensures |lines| == 7 && forall i :: 0 <= i < 7 ==> '\n' !in lines[i]
  {
    var pad := "        ";
    ["EXCELLENT", pad + "VERY GOOD", pad + "GOOD", pad + "SOMEWHAT GOOD", pad + "PASSABLE", pad + "POOR", pad + "REJECT"]
  }

  /** Each indented line strips to its mention. */
  lemma TestLinesStrip()
    ensures forall i :: 0 <= i < 7 ==> TestScale[i] != [] && Strip(TestLines()[i]) == TestScale[i]
  {
    var pad := "        ";
    StripPadded([], TestScale[0], []);
    assert [] + TestScale[0] + [] == TestScale[0] == TestLines()[0];
    forall i | 1 <= i < 7
      ensures Strip(TestLines()[i]) == TestScale[i]
    {
      StripPadded(pad, TestScale[i], []);
      assert pad + TestScale[i] + [] == TestLines()[i];
    }
  }

  /** Seven lines, all but the first indented by `pad`, joined by `sep` and
      surrounded by `w1` and `w2`. */
  lemma JoinIndented(w1: string, a: string, b: string, c: string, d: string, e: string, f: string, g: string,
                     pad: string, w2: string, sep: char)
    ensures w1 + Join([a, pad + b, pad + c, pad + d, pad + e, pad + f, pad + g], sep) + w2
            == w1 + a + [sep] + pad + b + [sep] + pad + c + [sep] + pad + d + [sep] + pad + e
               + [sep] + pad + f + [sep] + pad + g + w2
  {
    var l := [a, pad + b, pad + c, pad + d, pad + e, pad + f, pad + g];
    assert l[..1] == [a];
    assert w1 + Join(l[..1], sep) == w1 + a;
    IndentStep(w1, l, 1, pad, b, sep);
    IndentStep(w1, l, 2, pad, c, sep);
    IndentStep(w1, l, 3, pad, d, sep);
    IndentStep(w1, l, 4, pad, e, sep);
    IndentStep(w1, l, 5, pad, f, sep);
    IndentStep(w1, l, 6, pad, g, sep);
    assert l[..7] == l;
  }

  /** One more indented line on the join. */
  lemma IndentStep(w1: string, l: seq<string>, k: nat, pad: string, x: string, sep: char)
    requires 1 <= k < |l| && l[k] == pad + x
    ensures w1 + Join(l[..k + 1], sep) == w1 + Join(l[..k], sep) + [sep] + pad + x
  {
    assert l[..k + 1] == l[..k] + [l[k]];
    JoinSnoc(l[..k], l[k], sep);
  }

  /** The suite's scale text is its indented lines joined by newlines, with
      white space around them. */
  lemma TestMentionsLines()
    ensures TestMentions == "\n        " + Join(TestLines(), '\n') + "\n    "
  {
    JoinIndented("\n        ", "EXCELLENT", "VERY GOOD", "GOOD", "SOMEWHAT GOOD", "PASSABLE", "POOR", "REJECT",
                 "        ", "\n    ", '\n');
  }

  /** Stripping the suite's scale text leaves its indented lines joined. */
  lemma TestMentionsStrip()
    ensures Strip(TestMentions) == Join(TestLines(), '\n')
  {
    var lines := TestLines();
    TestPadding();
    TestLinesEnds();
    StripJoinPadded("\n        ", lines, "\n    ", '\n');
    TestMentionsLines();
  }

  /** The text around the suite's indented lines is white space. */
  lemma TestPadding()
    ensures forall k :: 0 <= k < |"\n        "| ==> IsSpace("\n        "[k])
    ensures forall k :: 0 <= k < |"\n    "| ==> IsSpace("\n    "[k])
  {
  }

  /** The suite's indented lines start with `E` and end with `T`. */
  lemma TestLinesEnds()
    ensures var lines := TestLines();
            (forall i :: 0 <= i < |lines| ==> lines[i] != [])
            && !IsSpace(lines[0][0]) && !IsSpace(lines[6][|lines[6]| - 1])
  {
    var lines := TestLines();
    TestLinesStrip();
    assert lines[0][0] == 'E' && lines[6][|lines[6]| - 1] == 'T';
  }

  /** Lines joined and padded with white space strip to the joined lines,
      when the first line starts and the last line ends with a non-blank. */
  lemma StripJoinPadded(w1: string, lines: seq<string>, w2: string, sep: char)
    requires forall k :: 0 <= k < |w1| ==> IsSpace(w1[k])
    requires forall k :: 0 <= k < |w2| ==> IsSpace(w2[k])
    requires |lines| >= 1 && forall i :: 0 <= i < |lines| ==> lines[i] != []
    requires !IsSpace(lines[0][0]) && !IsSpace(lines[|lines| - 1][|lines[|lines| - 1]| - 1])
    ensures Strip(w1 + Join(lines, sep) + w2) == Join(lines, sep)
  {
    JoinEnds(lines, sep);
    StripPadded(w1, Join(lines, sep), w2);
  }

  /** `load_mentions_from_string` on the suite's scale text gives the
      suite's scale. */
  lemma LoadTestMentions()
    ensures LoadMentionsFromString(TestMentions) == TestScale
  {
    var lines := TestLines();
    TestMentionsStrip();
    JoinSplit(lines, '\n');
    TestLinesStrip();
    KeepStrippedLabels(lines, TestScale);
  }

  /** A scale shaped like the test suite's. */
  predicate SevenMentions(ms: seq<string>)
  {
    |ms| == 7 && Distinct(ms) && "" !in ms
  }

  /** The tally of one judgment of the mention at position `p`. */
  lemma OneJudgment(ms: seq<string>, p: nat)
    requires SevenMentions(ms) && p < 7
    ensures AddAll(Zeros(7), [ms[p]], ms) == Zeros(7)[p := 1]
  {
    AddAllSnoc(ms, Zeros(7), [], p);
    assert [] + [ms[p]] == [ms[p]];
  }

  /** The tally of two judgments. */
  lemma TwoJudgments(ms: seq<string>, p: nat, q: nat)
    requires SevenMentions(ms) && p < 7 && q < 7
    ensures AddAll(Zeros(7), [ms[p], ms[q]], ms) == Inc(Zeros(7)[p := 1], q)
  {
    OneJudgment(ms, p);
    AddAllSnoc(ms, Zeros(7), [ms[p]], q);
    assert [ms[p]] + [ms[q]] == [ms[p], ms[q]];
  }

  /** The tally of three judgments. */
  lemma ThreeJudgments(ms: seq<string>, p: nat, q: nat, r: nat)
    requires SevenMentions(ms) && p < 7 && q < 7 && r < 7
    ensures AddAll(Zeros(7), [ms[p], ms[q], ms[r]], ms) == Inc(Inc(Zeros(7)[p := 1], q), r)
  {
    TwoJudgments(ms, p, q);
    AddAllSnoc(ms, Zeros(7), [ms[p], ms[q]], r);
    assert [ms[p], ms[q]] + [ms[r]] == [ms[p], ms[q], ms[r]];
  }

  lemma ZerosSeven()
    ensures Zeros(7) == [0, 0, 0, 0, 0, 0, 0]
  {
  }

  /** A candidate's tally in a deliberation whose data rows are all
      accepted: the count of its column. */
  lemma TallyOf(rows: seq<seq<string>>, ms: seq<string>, i: nat, col: seq<string>, t: Tally)
    requires SevenMentions(ms) && RowsFit(rows)
    requires Distinct(CandidateList(rows, 0)) && i < |CandidateList(rows, 0)|
    requires RowsAccepted(rows, ms, 0, |rows|) && DataRows(rows, 0, |rows|) > 0
    requires Column(rows, ms, 0, |rows|, i) == col && (forall m :: m in col ==> m in ms)
    requires AddAll(Zeros(7), col, ms) == t
    ensures Deliberation(rows, ms, 0).Ok?
    ensures CandidateList(rows, 0)[i] in Deliberation(rows, ms, 0).value.1
    ensures Deliberation(rows, ms, 0).value.1[CandidateList(rows, 0)[i]] == t
  {
    DeliberationSucceeds(rows, ms, 0);
    DeliberationColumn(rows, ms, 0, i);
  }

  /** `m` is the median once the total and the judgments below `m` are
      known. */
  lemma MedianIs(t: Tally, m: nat)
    requires |t| > 0 && Total(t) > 0 && m < |t|
    requires Below(t, m) <= (Total(t) - 1) / 2 < Below(t, m) + t[m]
    ensures Median(t) == m
  {
    MedianUnique(t, m);
  }

  /** A candidate goes in front of a list whose head does not rank
      strictly higher. */
  lemma InsertFront(tallies: map<string, Tally>, ms: seq<string>, c: string, h: string, s: seq<string>)
    requires HasTally(tallies, c, ms) && HasTally(tallies, h, ms) && Tallied(tallies, s, ms)
    requires Compare(tallies[h], tallies[c]) >= 0
    ensures Tallied(tallies, [h] + s, ms)
    ensures Insert(tallies, ms, c, [h] + s) == [c] + ([h] + s)
  {
    assert ([h] + s)[0] == h;
  }

  /** A candidate goes past a head that ranks strictly higher. */
  lemma InsertPast(tallies: map<string, Tally>, ms: seq<string>, c: string, h: string, s: seq<string>)
    requires HasTally(tallies, c, ms) && HasTally(tallies, h, ms) && Tallied(tallies, s, ms)
    requires Compare(tallies[h], tallies[c]) < 0
    ensures Tallied(tallies, [h] + s, ms)
    ensures Insert(tallies, ms, c, [h] + s) == [h] + Insert(tallies, ms, c, s)
  {
    assert ([h] + s)[0] == h && ([h] + s)[1..] == s;
  }

  /** Sorting a list is inserting its head into the sorted tail. */
  lemma SortCons(tallies: map<string, Tally>, ms: seq<string>, c: string, s: seq<string>)
    requires HasTally(tallies, c, ms) && Tallied(tallies, s, ms)
    ensures Tallied(tallies, [c] + s, ms)
    ensures SortCandidates(tallies, [c] + s, ms) == Insert(tallies, ms, c, SortCandidates(tallies, s, ms))
  {
    assert ([c] + s)[1..] == s;
  }

  /** Two candidates come out in the opposite order when the second ranks
      strictly higher. */
  lemma SortSwapsPair(tallies: map<string, Tally>, ms: seq<string>, c: string, d: string)
    requires |ms| > 0 && HasTally(tallies, c, ms) && HasTally(tallies, d, ms)
    requires Compare(tallies[d], tallies[c]) < 0
    ensures Tallied(tallies, [c, d], ms)
    ensures SortCandidates(tallies, [c, d], ms) == [d, c]
  {
    Pair(d, c);
    Pair(c, d);
    SortCons(tallies, ms, d, []);
    SortCons(tallies, ms, c, [d]);
    InsertPast(tallies, ms, c, d, []);
  }

  // ---------------------------------------------------------------------
  // Two judges, three candidates: `test_run_with_array` and
  // `test_deliberation_with_two_judges`.

  function TwoJudges(ms: seq<string>, a: string, b: string, c: string): seq<seq<string>>
    requires |ms| == 7
  {
    [[a, b, c], [ms[5], ms[2], ms[6]], [ms[0], ms[2], ms[0]]]
  }

  lemma TwoJudgesRows(ms: seq<string>, a: string, b: string, c: string)
    requires SevenMentions(ms)
    ensures RowsFit(TwoJudges(ms, a, b, c))
    ensures CandidateList(TwoJudges(ms, a, b, c), 0) == [a, b, c]
    ensures DataRows(TwoJudges(ms, a, b, c), 0, 3) == 2 && RowsAccepted(TwoJudges(ms, a, b, c), ms, 0, 3)
  {
    var rows := TwoJudges(ms, a, b, c);
    assert Cells(rows[0], 0) == rows[0];
    assert Cells(rows[1], 0) == rows[1];
    assert Cells(rows[2], 0) == rows[2];
    assert ms[0] in ms && ms[2] in ms && ms[5] in ms && ms[6] in ms;
    assert DataRows(rows, 0, 2) == 1;
  }

  /** Column `i` of the two-judge run: one judgment per judge. */
  lemma TwoJudgesColumn(ms: seq<string>, a: string, b: string, c: string, i: nat)
    requires SevenMentions(ms) && i < 3
    ensures Column(TwoJudges(ms, a, b, c), ms, 0, 3, i)
         == [[ms[5], ms[2], ms[6]][i], [ms[0], ms[2], ms[0]][i]]
  {
    var rows := TwoJudges(ms, a, b, c);
    var first, second := [ms[5], ms[2], ms[6]][i], [ms[0], ms[2], ms[0]][i];
    assert Cells(rows[1], 0) == rows[1];
    assert Cells(rows[2], 0) == rows[2];
    assert first in ms && second in ms;
    assert Column(rows, ms, 0, 2, i) == [first];
  }

  lemma MedianPoorExcellent()
    ensures Median([1, 0, 0, 0, 0, 1, 0]) == 5
  {
    var t: Tally := [1, 0, 0, 0, 0, 1, 0];
    assert t[6..] == [0] && Total(t) == 2;
    MedianIs(t, 5);
  }

  lemma MedianGoodGood()
    ensures Median([0, 0, 2, 0, 0, 0, 0]) == 2
  {
    var t: Tally := [0, 0, 2, 0, 0, 0, 0];
    assert Total(t) == 2 && Below(t, 2) == 0;
    MedianIs(t, 2);
  }

  lemma MedianRejectExcellent()
    ensures Median([1, 0, 0, 0, 0, 0, 1]) == 6
  {
    var t: Tally := [1, 0, 0, 0, 0, 0, 1];
    assert t[7..] == [] && Total(t) == 2;
    MedianIs(t, 6);
  }

  /** The last two candidates of the two-judge run, already in order. */
  lemma SortTwoJudgesTail(tallies: map<string, Tally>, ms: seq<string>, b: string, c: string)
    requires HasTally(tallies, b, ms) && HasTally(tallies, c, ms) && |ms| > 0
    requires Median(tallies[b]) == 2 && Median(tallies[c]) == 6
    ensures Tallied(tallies, [b, c], ms)
    ensures SortCandidates(tallies, [b, c], ms) == [b, c]
  {
    Pair(b, c);
    Pair(c, b);
    SortCons(tallies, ms, c, []);
    SortCons(tallies, ms, b, [c]);
    InsertFront(tallies, ms, b, c, []);
  }

  /** The medians decide: B (GOOD) before A (POOR) before C (REJECT). */
  lemma SortTwoJudges(tallies: map<string, Tally>, ms: seq<string>, a: string, b: string, c: string)
    requires HasTally(tallies, a, ms) && HasTally(tallies, b, ms) && HasTally(tallies, c, ms) && |ms| > 0
    requires Median(tallies[a]) == 5 && Median(tallies[b]) == 2 && Median(tallies[c]) == 6
    ensures Tallied(tallies, [a, b, c], ms)
    ensures SortCandidates(tallies, [a, b, c], ms) == [b, a, c]
  {
    Triple(a, b, c);
    Pair(b, c);
    Pair(c, a);
    Triple(b, a, c);
    TalliedThree(tallies, ms, a, b, c);
    SortTwoJudgesTail(tallies, ms, b, c);
    SortCons(tallies, ms, a, [b, c]);
    InsertPast(tallies, ms, a, b, [c]);
    InsertFront(tallies, ms, a, c, []);
  }

  /** The counts of the three columns of the two-judge run. */
  lemma TwoJudgesCounts(ms: seq<string>)
    requires SevenMentions(ms)
    ensures AddAll(Zeros(7), [ms[5], ms[0]], ms) == [1, 0, 0, 0, 0, 1, 0]
    ensures AddAll(Zeros(7), [ms[2], ms[2]], ms) == [0, 0, 2, 0, 0, 0, 0]
    ensures AddAll(Zeros(7), [ms[6], ms[0]], ms) == [1, 0, 0, 0, 0, 0, 1]
  {
    ZerosSeven();
    TwoJudgments(ms, 5, 0);
    TwoJudgments(ms, 2, 2);
    TwoJudgments(ms, 6, 0);
  }

  /** The tallies of the two-judge run. */
  lemma TwoJudgesTallies(ms: seq<string>, a: string, b: string, c: string)
    requires SevenMentions(ms) && Distinct([a, b, c])
    ensures RowsFit(TwoJudges(ms, a, b, c)) && Distinct(ms) && |ms| > 0
    ensures Deliberation(TwoJudges(ms, a, b, c), ms, 0).Ok?
    ensures CandidateList(TwoJudges(ms, a, b, c), 0) == [a, b, c]
    ensures a in Deliberation(TwoJudges(ms, a, b, c), ms, 0).value.1
    ensures b in Deliberation(TwoJudges(ms, a, b, c), ms, 0).value.1
    ensures c in Deliberation(TwoJudges(ms, a, b, c), ms, 0).value.1
    ensures Deliberation(TwoJudges(ms, a, b, c), ms, 0).value.1[a] == [1, 0, 0, 0, 0, 1, 0]
    ensures Deliberation(TwoJudges(ms, a, b, c), ms, 0).value.1[b] == [0, 0, 2, 0, 0, 0, 0]
    ensures Deliberation(TwoJudges(ms, a, b, c), ms, 0).value.1[c] == [1, 0, 0, 0, 0, 0, 1]
  {
    var rows := TwoJudges(ms, a, b, c);
    TwoJudgesRows(ms, a, b, c);
    TwoJudgesColumn(ms, a, b, c, 0);
    TwoJudgesColumn(ms, a, b, c, 1);
    TwoJudgesColumn(ms, a, b, c, 2);
    TwoJudgesCounts(ms);
    assert ms[0] in ms && ms[2] in ms && ms[5] in ms && ms[6] in ms;
    TallyOf(rows, ms, 0, [ms[5], ms[0]], [1, 0, 0, 0, 0, 1, 0]);
    TallyOf(rows, ms, 1, [ms[2], ms[2]], [0, 0, 2, 0, 0, 0, 0]);
    TallyOf(rows, ms, 2, [ms[6], ms[0]], [1, 0, 0, 0, 0, 0, 1]);
  }

  /** Two judges: B, whose median is GOOD, wins; A, with median POOR, comes
      before C, with median REJECT. */
  lemma TwoJudgesRanking(ms: seq<string>, a: string, b: string, c: string)
    requires SevenMentions(ms) && Distinct([a, b, c])
    ensures RowsFit(TwoJudges(ms, a, b, c)) && Distinct(ms) && |ms| > 0
    ensures Deliberation(TwoJudges(ms, a, b, c), ms, 0).Ok?
    ensures Deliberation(TwoJudges(ms, a, b, c), ms, 0).value.1
            == map[a := [1, 0, 0, 0, 0, 1, 0], b := [0, 0, 2, 0, 0, 0, 0], c := [1, 0, 0, 0, 0, 0, 1]]
    ensures Deliberation(TwoJudges(ms, a, b, c), ms, 0).value.0 == [b, a, c]
  {
    var rows := TwoJudges(ms, a, b, c);
    TwoJudgesTallies(ms, a, b, c);
    DeliberationRanksCandidates(rows, ms, 0);
    DeliberationParts(rows, ms, 0);
    var tallies := Deliberation(rows, ms, 0).value.1;
    MapOfThree(tallies, a, b, c, [1, 0, 0, 0, 0, 1, 0], [0, 0, 2, 0, 0, 0, 0], [1, 0, 0, 0, 0, 0, 1]);
    MedianPoorExcellent();
    MedianGoodGood();
    MedianRejectExcellent();
    SortTwoJudges(tallies, ms, a, b, c);
  }

  // ---------------------------------------------------------------------
  // One candidate: `test_dumb_deliberation_with_one_candidate`.

  function OneCandidate(ms: seq<string>, a: string): seq<seq<string>>
    requires |ms| == 7
  {
    [[a], [ms[4]], [ms[0]]]
  }

  lemma OneCandidateRows(ms: seq<string>, a: string)
    requires SevenMentions(ms)
    ensures RowsFit(OneCandidate(ms, a))
    ensures CandidateList(OneCandidate(ms, a), 0) == [a]
    ensures DataRows(OneCandidate(ms, a), 0, 3) == 2 && RowsAccepted(OneCandidate(ms, a), ms, 0, 3)
    ensures Column(OneCandidate(ms, a), ms, 0, 3, 0) == [ms[4], ms[0]]
  {
    var rows := OneCandidate(ms, a);
    assert Cells(rows[0], 0) == rows[0];
    assert Cells(rows[1], 0) == rows[1];
    assert Cells(rows[2], 0) == rows[2];
    assert ms[0] in ms && ms[4] in ms;
    assert DataRows(rows, 0, 2) == 1;
    assert Column(rows, ms, 0, 2, 0) == [ms[4]];
  }

  lemma OneCandidateTally(ms: seq<string>, a: string)
    requires SevenMentions(ms)
    ensures RowsFit(OneCandidate(ms, a)) && Distinct(ms) && |ms| > 0
    ensures Deliberation(OneCandidate(ms, a), ms, 0).Ok?
    ensures a in Deliberation(OneCandidate(ms, a), ms, 0).value.1
    ensures Deliberation(OneCandidate(ms, a), ms, 0).value.1[a] == [1, 0, 0, 0, 1, 0, 0]
  {
    var rows := OneCandidate(ms, a);
    OneCandidateRows(ms, a);
    ZerosSeven();
    TwoJudgments(ms, 4, 0);
    TallyOf(rows, ms, 0, [ms[4], ms[0]], [1, 0, 0, 0, 1, 0, 0]);
  }

  /** A single candidate is the whole ranking; its tally holds one
      PASSABLE and one EXCELLENT. */
  lemma OneCandidateRanking(ms: seq<string>, a: string)
    requires SevenMentions(ms)
    ensures RowsFit(OneCandidate(ms, a)) && Distinct(ms) && |ms| > 0
    ensures Deliberation(OneCandidate(ms, a), ms, 0).Ok?
    ensures Deliberation(OneCandidate(ms, a), ms, 0).value.1 == map[a := [1, 0, 0, 0, 1, 0, 0]]
    ensures Deliberation(OneCandidate(ms, a), ms, 0).value.0 == [a]
  {
    OneCandidateTally(ms, a);
    OneCandidateRows(ms, a);
    DeliberationRanksCandidates(OneCandidate(ms, a), ms, 0);
    var r := Deliberation(OneCandidate(ms, a), ms, 0).value;
    MapOfOne(r.1, a, [1, 0, 0, 0, 1, 0, 0]);
    OnlyOrder(r.0, a);
  }

  /** The only list holding exactly one `a` is `[a]`. */
  lemma OnlyOrder(s: seq<string>, a: string)
    requires multiset(s) == multiset([a])
    ensures s == [a]
  {
    assert |s| == |multiset(s)| == 1;
    assert s[0] in multiset(s);
  }

  // ---------------------------------------------------------------------
  // One judge, four candidates: `test_deliberation_with_one_judge`.

  function OneJudge(ms: seq<string>, a: string, b: string, c: string, d: string): seq<seq<string>>
    requires |ms| == 7
  {
    [[a, b, c, d], [ms[6], ms[4], ms[5], ms[2]]]
  }

  lemma OneJudgeRows(ms: seq<string>, a: string, b: string, c: string, d: string)
    requires SevenMentions(ms)
    ensures RowsFit(OneJudge(ms, a, b, c, d))
    ensures CandidateList(OneJudge(ms, a, b, c, d), 0) == [a, b, c, d]
    ensures DataRows(OneJudge(ms, a, b, c, d), 0, 2) == 1 && RowsAccepted(OneJudge(ms, a, b, c, d), ms, 0, 2)
    ensures Column(OneJudge(ms, a, b, c, d), ms, 0, 2, 0) == [ms[6]]
    ensures Column(OneJudge(ms, a, b, c, d), ms, 0, 2, 1) == [ms[4]]
    ensures Column(OneJudge(ms, a, b, c, d), ms, 0, 2, 2) == [ms[5]]
    ensures Column(OneJudge(ms, a, b, c, d), ms, 0, 2, 3) == [ms[2]]
  {
    var rows := OneJudge(ms, a, b, c, d);
    assert Cells(rows[0], 0) == rows[0];
    assert Cells(rows[1], 0) == rows[1];
    assert ms[2] in ms && ms[4] in ms && ms[5] in ms && ms[6] in ms;
  }

  /** The tallies of the one-judge run: each holds its single judgment. */
  lemma OneJudgeTallies(ms: seq<string>, a: string, b: string, c: string, d: string)
    requires SevenMentions(ms) && Distinct([a, b, c, d])
    ensures RowsFit(OneJudge(ms, a, b, c, d)) && Distinct(ms) && |ms| > 0
    ensures Deliberation(OneJudge(ms, a, b, c, d), ms, 0).Ok?
    ensures CandidateList(OneJudge(ms, a, b, c, d), 0) == [a, b, c, d]
    ensures forall k :: k in Deliberation(OneJudge(ms, a, b, c, d), ms, 0).value.1 <==> k in [a, b, c, d]
    ensures Deliberation(OneJudge(ms, a, b, c, d), ms, 0).value.1[a] == Zeros(7)[6 := 1]
    ensures Deliberation(OneJudge(ms, a, b, c, d), ms, 0).value.1[b] == Zeros(7)[4 := 1]
    ensures Deliberation(OneJudge(ms, a, b, c, d), ms, 0).value.1[c] == Zeros(7)[5 := 1]
    ensures Deliberation(OneJudge(ms, a, b, c, d), ms, 0).value.1[d] == Zeros(7)[2 := 1]
  {
    var rows := OneJudge(ms, a, b, c, d);
    OneJudgeRows(ms, a, b, c, d);
    OneJudgment(ms, 6);
    OneJudgment(ms, 4);
    OneJudgment(ms, 5);
    OneJudgment(ms, 2);
    TallyOf(rows, ms, 0, [ms[6]], Zeros(7)[6 := 1]);
    TallyOf(rows, ms, 1, [ms[4]], Zeros(7)[4 := 1]);
    TallyOf(rows, ms, 2, [ms[5]], Zeros(7)[5 := 1]);
    TallyOf(rows, ms, 3, [ms[2]], Zeros(7)[2 := 1]);
    DeliberationRanksCandidates(rows, ms, 0);
  }

  /** A single judgment is its own median. */
  lemma MedianOfOne(p: nat)
    requires p < 7
    ensures Median(Zeros(7)[p := 1]) == p
  {
    var t := Zeros(7)[p := 1];
    TotalFrom(t, p);
    TotalZero(t[p + 1..]);
    IncTotal(Zeros(7), p);
    MedianIs(t, p);
  }

  /** A candidate that ranks strictly lower than all three of a list goes
      last. */
  lemma InsertLastOfThree(tallies: map<string, Tally>, ms: seq<string>, c: string, x: string, y: string, z: string)
    requires |ms| > 0 && HasTally(tallies, c, ms) && HasTally(tallies, x, ms)
    requires HasTally(tallies, y, ms) && HasTally(tallies, z, ms)
    requires Compare(tallies[x], tallies[c]) < 0 && Compare(tallies[y], tallies[c]) < 0
    requires Compare(tallies[z], tallies[c]) < 0
    ensures Tallied(tallies, [x, y, z], ms)
    ensures Insert(tallies, ms, c, [x, y, z]) == [x, y, z, c]
  {
    Pair(z, c);
    Pair(y, z);
    Triple(x, y, z);
    Quad(x, y, z, c);
    InsertPast(tallies, ms, c, z, []);
    InsertPast(tallies, ms, c, y, [z]);
    InsertPast(tallies, ms, c, x, [y, z]);
  }

  /** The order the one-judge ranking takes: D before B before C before A. */
  lemma SortOneJudge(tallies: map<string, Tally>, ms: seq<string>, a: string, b: string, c: string, d: string)
    requires |ms| > 0 && HasTally(tallies, a, ms) && HasTally(tallies, b, ms)
    requires HasTally(tallies, c, ms) && HasTally(tallies, d, ms)
    requires Compare(tallies[d], tallies[c]) < 0 && Compare(tallies[d], tallies[b]) < 0
    requires Compare(tallies[c], tallies[b]) > 0 && Compare(tallies[d], tallies[a]) < 0
    requires Compare(tallies[b], tallies[a]) < 0 && Compare(tallies[c], tallies[a]) < 0
    ensures Tallied(tallies, [a, b, c, d], ms)
    ensures SortCandidates(tallies, [a, b, c, d], ms) == [d, b, c, a]
  {
    Quad(a, b, c, d);
    TalliedFour(tallies, ms, a, b, c, d);
    SortOneJudgeTail(tallies, ms, b, c, d);
    SortCons(tallies, ms, a, [b, c, d]);
    InsertLastOfThree(tallies, ms, a, d, b, c);
  }

  lemma SortOneJudgeTail(tallies: map<string, Tally>, ms: seq<string>, b: string, c: string, d: string)
    requires |ms| > 0 && HasTally(tallies, b, ms) && HasTally(tallies, c, ms) && HasTally(tallies, d, ms)
    requires Compare(tallies[d], tallies[c]) < 0 && Compare(tallies[d], tallies[b]) < 0
    requires Compare(tallies[c], tallies[b]) > 0
    ensures Tallied(tallies, [b, c, d], ms)
    ensures SortCandidates(tallies, [b, c, d], ms) == [d, b, c]
  {
    Triple(b, c, d);
    Pair(d, c);
    Pair(c, d);
    Triple(d, b, c);
    TalliedThree(tallies, ms, b, d, c);
    SortSwapsPair(tallies, ms, c, d);
    SortCons(tallies, ms, b, [c, d]);
    InsertFront(tallies, ms, b, c, []);
    InsertPast(tallies, ms, b, d, [c]);
  }

  /** One judge: the candidates come in the order of their single mention,
      D (GOOD), B (PASSABLE), C (POOR), A (REJECT). */
  lemma OneJudgeRanking(ms: seq<string>, a: string, b: string, c: string, d: string)
    requires SevenMentions(ms) && Distinct([a, b, c, d])
    ensures RowsFit(OneJudge(ms, a, b, c, d)) && Distinct(ms) && |ms| > 0
    ensures Deliberation(OneJudge(ms, a, b, c, d), ms, 0).Ok?
    ensures Deliberation(OneJudge(ms, a, b, c, d), ms, 0).value.0 == [d, b, c, a]
  {
    var rows := OneJudge(ms, a, b, c, d);
    OneJudgeTallies(ms, a, b, c, d);
    DeliberationParts(rows, ms, 0);
    var tallies := Deliberation(rows, ms, 0).value.1;
    assert a in [a, b, c, d] && b in [a, b, c, d] && c in [a, b, c, d] && d in [a, b, c, d];
    SortOneJudgeTallies(tallies, ms, a, b, c, d);
  }

  /** The sort of the one-judge run, from its four single-judgment tallies. */
  lemma SortOneJudgeTallies(tallies: map<string, Tally>, ms: seq<string>, a: string, b: string, c: string, d: string)
    requires |ms| == 7 && a in tallies && b in tallies && c in tallies && d in tallies
    requires tallies[a] == Zeros(7)[6 := 1] && tallies[b] == Zeros(7)[4 := 1]
    requires tallies[c] == Zeros(7)[5 := 1] && tallies[d] == Zeros(7)[2 := 1]
    ensures Tallied(tallies, [a, b, c, d], ms)
    ensures SortCandidates(tallies, [a, b, c, d], ms) == [d, b, c, a]
  {
    MedianOfOne(6);
    MedianOfOne(4);
    MedianOfOne(5);
    MedianOfOne(2);
    SortOneJudge(tallies, ms, a, b, c, d);
  }

  // ---------------------------------------------------------------------
  // Three judges, four candidates sharing the median EXCELLENT:
  // `test_deliberation_with_same_median`.

  function SameMedian(ms: seq<string>, a: string, b: string, c: string, d: string): seq<seq<string>>
    requires |ms| == 7
  {
    [[a, b, c, d], [ms[5], ms[2], ms[6], ms[4]], [ms[0], ms[0], ms[0], ms[0]], [ms[0], ms[0], ms[0], ms[0]]]
  }

  lemma SameMedianRows(ms: seq<string>, a: string, b: string, c: string, d: string)
    requires SevenMentions(ms)
    ensures RowsFit(SameMedian(ms, a, b, c, d))
    ensures CandidateList(SameMedian(ms, a, b, c, d), 0) == [a, b, c, d]
    ensures DataRows(SameMedian(ms, a, b, c, d), 0, 4) == 3 && RowsAccepted(SameMedian(ms, a, b, c, d), ms, 0, 4)
  {
    var rows := SameMedian(ms, a, b, c, d);
    assert Cells(rows[0], 0) == rows[0];
    assert Cells(rows[1], 0) == rows[1];
    assert Cells(rows[2], 0) == rows[2];
    assert Cells(rows[3], 0) == rows[3];
    assert ms[0] in ms && ms[2] in ms && ms[4] in ms && ms[5] in ms && ms[6] in ms;
    assert DataRows(rows, 0, 2) == 1;
    assert DataRows(rows, 0, 3) == 2;
  }

  /** Column `i` of the same-median run: the first judge's mention, then
      two EXCELLENT. */
  lemma SameMedianColumn(ms: seq<string>, a: string, b: string, c: string, d: string, i: nat)
    requires SevenMentions(ms) && i < 4
    ensures Column(SameMedian(ms, a, b, c, d), ms, 0, 4, i)
         == [[ms[5], ms[2], ms[6], ms[4]][i], ms[0], ms[0]]
  {
    var rows := SameMedian(ms, a, b, c, d);
    var first := [ms[5], ms[2], ms[6], ms[4]][i];
    assert Cells(rows[1], 0) == rows[1];
    assert Cells(rows[2], 0) == rows[2];
    assert Cells(rows[3], 0) == rows[3];
    assert first in ms && ms[0] in ms;
    assert Column(rows, ms, 0, 2, i) == [first];
    assert Column(rows, ms, 0, 3, i) == [first, ms[0]];
  }

  /** The counts of the four columns of the same-median run. */
  lemma SameMedianCounts(ms: seq<string>)
    requires SevenMentions(ms)
    ensures AddAll(Zeros(7), [ms[5], ms[0], ms[0]], ms) == [2, 0, 0, 0, 0, 1, 0]
    ensures AddAll(Zeros(7), [ms[2], ms[0], ms[0]], ms) == [2, 0, 1, 0, 0, 0, 0]
    ensures AddAll(Zeros(7), [ms[6], ms[0], ms[0]], ms) == [2, 0, 0, 0, 0, 0, 1]
    ensures AddAll(Zeros(7), [ms[4], ms[0], ms[0]], ms) == [2, 0, 0, 0, 1, 0, 0]
  {
    ZerosSeven();
    ThreeJudgments(ms, 5, 0, 0);
    ThreeJudgments(ms, 2, 0, 0);
    ThreeJudgments(ms, 6, 0, 0);
    ThreeJudgments(ms, 4, 0, 0);
  }

  /** The tallies of the same-median run. */
  lemma SameMedianTallies(ms: seq<string>, a: string, b: string, c: string, d: string)
    requires SevenMentions(ms) && Distinct([a, b, c, d])
    ensures RowsFit(SameMedian(ms, a, b, c, d)) && Distinct(ms) && |ms| > 0
    ensures Deliberation(SameMedian(ms, a, b, c, d), ms, 0).Ok?
    ensures CandidateList(SameMedian(ms, a, b, c, d), 0) == [a, b, c, d]
    ensures forall k :: k in Deliberation(SameMedian(ms, a, b, c, d), ms, 0).value.1 <==> k in [a, b, c, d]
    ensures Deliberation(SameMedian(ms, a, b, c, d), ms, 0).value.1[a] == [2, 0, 0, 0, 0, 1, 0]
    ensures Deliberation(SameMedian(ms, a, b, c, d), ms, 0).value.1[b] == [2, 0, 1, 0, 0, 0, 0]
    ensures Deliberation(SameMedian(ms, a, b, c, d), ms, 0).value.1[c] == [2, 0, 0, 0, 0, 0, 1]
    ensures Deliberation(SameMedian(ms, a, b, c, d), ms, 0).value.1[d] == [2, 0, 0, 0, 1, 0, 0]
  {
    var rows := SameMedian(ms, a, b, c, d);
    SameMedianRows(ms, a, b, c, d);
    SameMedianCounts(ms);
    SameMedianColumn(ms, a, b, c, d, 0);
    SameMedianColumn(ms, a, b, c, d, 1);
    SameMedianColumn(ms, a, b, c, d, 2);
    SameMedianColumn(ms, a, b, c, d, 3);
    assert ms[0] in ms && ms[2] in ms && ms[4] in ms && ms[5] in ms && ms[6] in ms;
    TallyOf(rows, ms, 0, [ms[5], ms[0], ms[0]], [2, 0, 0, 0, 0, 1, 0]);
    TallyOf(rows, ms, 1, [ms[2], ms[0], ms[0]], [2, 0, 1, 0, 0, 0, 0]);
    TallyOf(rows, ms, 2, [ms[6], ms[0], ms[0]], [2, 0, 0, 0, 0, 0, 1]);
    TallyOf(rows, ms, 3, [ms[4], ms[0], ms[0]], [2, 0, 0, 0, 1, 0, 0]);
    DeliberationRanksCandidates(rows, ms, 0);
  }

  /** Two EXCELLENT out of three judgments make EXCELLENT the median. */
  lemma MedianTwoExcellent(t: Tally)
    requires |t| == 7 && t[0] == 2 && Total(t) == 3
    ensures Median(t) == 0
  {
    TotalFrom(t, 0);
    assert t[0..] == t;
    MedianIs(t, 0);
  }

  lemma MedianPassableExcellent()
    ensures Median([1, 0, 0, 0, 1, 0, 0]) == 4
  {
    var t: Tally := [1, 0, 0, 0, 1, 0, 0];
    assert t[5..] == [0, 0] && Total(t) == 2;
    MedianIs(t, 4);
  }

  lemma MedianGoodExcellent()
    ensures Median([1, 0, 1, 0, 0, 0, 0]) == 2
  {
    var t: Tally := [1, 0, 1, 0, 0, 0, 0];
    assert t[3..] == [0, 0, 0, 0] && Total(t) == 2;
    MedianIs(t, 2);
  }

  /** Two EXCELLENT and one other mention: the median is EXCELLENT, and
      removing one EXCELLENT leaves the tally `u`. */
  lemma TieOnExcellent(t: Tally, u: Tally)
    requires |t| == 7 && t[0] == 2 && Total(t) == 3 && u == t[0 := 1]
    ensures Median(t) == 0 && Dec(t, Median(t)) == u
  {
    MedianTwoExcellent(t);
  }

  /** The four tallies of the same-median run: three judgments each, median
      EXCELLENT, and the median left once one EXCELLENT is removed. */
  lemma SameMedianA()
    ensures Total([2, 0, 0, 0, 0, 1, 0]) == 3 && Median([2, 0, 0, 0, 0, 1, 0]) == 0
    ensures Median(Dec([2, 0, 0, 0, 0, 1, 0], 0)) == 5
  {
    var t: Tally := [2, 0, 0, 0, 0, 1, 0];
    assert Total(t) == 3;
    TieOnExcellent(t, [1, 0, 0, 0, 0, 1, 0]);
    MedianPoorExcellent();
  }

  lemma SameMedianB()
    ensures Total([2, 0, 1, 0, 0, 0, 0]) == 3 && Median([2, 0, 1, 0, 0, 0, 0]) == 0
    ensures Median(Dec([2, 0, 1, 0, 0, 0, 0], 0)) == 2
  {
    var t: Tally := [2, 0, 1, 0, 0, 0, 0];
    assert Total(t) == 3;
    TieOnExcellent(t, [1, 0, 1, 0, 0, 0, 0]);
    MedianGoodExcellent();
  }

  lemma SameMedianC()
    ensures Total([2, 0, 0, 0, 0, 0, 1]) == 3 && Median([2, 0, 0, 0, 0, 0, 1]) == 0
    ensures Median(Dec([2, 0, 0, 0, 0, 0, 1], 0)) == 6
  {
    var t: Tally := [2, 0, 0, 0, 0, 0, 1];
    assert Total(t) == 3;
    TieOnExcellent(t, [1, 0, 0, 0, 0, 0, 1]);
    MedianRejectExcellent();
  }

  lemma SameMedianD()
    ensures Total([2, 0, 0, 0, 1, 0, 0]) == 3 && Median([2, 0, 0, 0, 1, 0, 0]) == 0
    ensures Median(Dec([2, 0, 0, 0, 1, 0, 0], 0)) == 4
  {
    var t: Tally := [2, 0, 0, 0, 1, 0, 0];
    assert Total(t) == 3;
    TieOnExcellent(t, [1, 0, 0, 0, 1, 0, 0]);
    MedianPassableExcellent();
  }

  /** Two tallies with the same median and total are ordered by the
      medians left once that median is removed from each, when those
      differ. */
  lemma TieBroken(x: Tally, y: Tally, mx: nat, my: nat)
    requires |x| == |y| > 0 && Total(x) == Total(y) > 0 && Median(x) == Median(y)
    requires Median(Dec(x, Median(x))) == mx && Median(Dec(y, Median(y))) == my && mx != my
    ensures Compare(x, y) != 0 && (Compare(x, y) < 0 <==> mx < my)
  {
    CompareStep(x, y);
  }

  /** Where the tail of the same-median run goes: B before D before C. */
  lemma SortSameMedianTail(tallies: map<string, Tally>, ms: seq<string>, b: string, c: string, d: string)
    requires |ms| > 0 && HasTally(tallies, b, ms) && HasTally(tallies, c, ms) && HasTally(tallies, d, ms)
    requires Compare(tallies[d], tallies[c]) < 0 && Compare(tallies[d], tallies[b]) >= 0
    ensures Tallied(tallies, [b, c, d], ms)
    ensures SortCandidates(tallies, [b, c, d], ms) == [b, d, c]
  {
    Triple(b, c, d);
    Pair(d, c);
    Triple(b, d, c);
    TalliedThree(tallies, ms, b, d, c);
    SortSwapsPair(tallies, ms, c, d);
    SortCons(tallies, ms, b, [c, d]);
    InsertFront(tallies, ms, b, d, [c]);
  }

  /** A candidate that ranks strictly lower than the first two of a list
      and not strictly lower than the third goes third. */
  lemma InsertThirdOfThree(tallies: map<string, Tally>, ms: seq<string>, c: string, x: string, y: string, z: string)
    requires |ms| > 0 && HasTally(tallies, c, ms) && HasTally(tallies, x, ms)
    requires HasTally(tallies, y, ms) && HasTally(tallies, z, ms)
    requires Compare(tallies[x], tallies[c]) < 0 && Compare(tallies[y], tallies[c]) < 0
    requires Compare(tallies[z], tallies[c]) >= 0
    ensures Tallied(tallies, [x, y, z], ms)
    ensures Insert(tallies, ms, c, [x, y, z]) == [x, y, c, z]
  {
    Pair(z, c);
    Pair(y, z);
    Triple(x, y, z);
    Quad(x, y, c, z);
    InsertFront(tallies, ms, c, z, []);
    InsertPast(tallies, ms, c, y, [z]);
    InsertPast(tallies, ms, c, x, [y, z]);
  }

  /** The order the same-median ranking takes, from the pairwise
      comparisons. */
  lemma SortSameMedianOrder(tallies: map<string, Tally>, ms: seq<string>, a: string, b: string, c: string, d: string)
    requires |ms| > 0 && HasTally(tallies, a, ms) && HasTally(tallies, b, ms)
    requires HasTally(tallies, c, ms) && HasTally(tallies, d, ms)
    requires Compare(tallies[d], tallies[c]) < 0 && Compare(tallies[d], tallies[b]) > 0
    requires Compare(tallies[b], tallies[a]) < 0 && Compare(tallies[d], tallies[a]) < 0
    requires Compare(tallies[c], tallies[a]) > 0
    ensures Tallied(tallies, [a, b, c, d], ms)
    ensures SortCandidates(tallies, [a, b, c, d], ms) == [b, d, a, c]
  {
    Quad(a, b, c, d);
    TalliedFour(tallies, ms, a, b, c, d);
    SortSameMedianTail(tallies, ms, b, c, d);
    SortCons(tallies, ms, a, [b, c, d]);
    InsertThirdOfThree(tallies, ms, a, b, d, c);
  }

  /** All four share the median EXCELLENT; removing one EXCELLENT leaves
      B at GOOD, D at PASSABLE, A at POOR and C at REJECT, and that is the
      ranking. */
  lemma SortSameMedian(tallies: map<string, Tally>, ms: seq<string>, a: string, b: string, c: string, d: string)
    requires |ms| > 0 && HasTally(tallies, a, ms) && HasTally(tallies, b, ms)
    requires HasTally(tallies, c, ms) && HasTally(tallies, d, ms)
    requires Total(tallies[a]) == Total(tallies[b]) == Total(tallies[c]) == Total(tallies[d]) > 0
    requires Median(tallies[a]) == Median(tallies[b]) == Median(tallies[c]) == Median(tallies[d])
    requires Median(Dec(tallies[a], Median(tallies[a]))) == 5 && Median(Dec(tallies[b], Median(tallies[b]))) == 2
    requires Median(Dec(tallies[c], Median(tallies[c]))) == 6 && Median(Dec(tallies[d], Median(tallies[d]))) == 4
    ensures Tallied(tallies, [a, b, c, d], ms)
    ensures SortCandidates(tallies, [a, b, c, d], ms) == [b, d, a, c]
  {
    TieBroken(tallies[d], tallies[c], 4, 6);
    TieBroken(tallies[d], tallies[b], 4, 2);
    TieBroken(tallies[b], tallies[a], 2, 5);
    TieBroken(tallies[d], tallies[a], 4, 5);
    TieBroken(tallies[c], tallies[a], 6, 5);
    SortSameMedianOrder(tallies, ms, a, b, c, d);
  }

  /** Same median: the tie on EXCELLENT is broken by the mention left once
      one EXCELLENT is removed, giving B, D, A, C. */
  lemma SameMedianRanking(ms: seq<string>, a: string, b: string, c: string, d: string)
    requires SevenMentions(ms) && Distinct([a, b, c, d])
    ensures RowsFit(SameMedian(ms, a, b, c, d)) && Distinct(ms) && |ms| > 0
    ensures Deliberation(SameMedian(ms, a, b, c, d), ms, 0).Ok?
    ensures Deliberation(SameMedian(ms, a, b, c, d), ms, 0).value.0 == [b, d, a, c]
  {
    var rows := SameMedian(ms, a, b, c, d);
    SameMedianTallies(ms, a, b, c, d);
    DeliberationParts(rows, ms, 0);
    var tallies := Deliberation(rows, ms, 0).value.1;
    assert a in [a, b, c, d] && b in [a, b, c, d] && c in [a, b, c, d] && d in [a, b, c, d];
    SortSameMedianTallies(tallies, ms, a, b, c, d);
  }

  /** The sort of the same-median run, from its four tallies. */
  lemma SortSameMedianTallies(tallies: map<string, Tally>, ms: seq<string>, a: string, b: string, c: string, d: string)
    requires |ms| == 7 && a in tallies && b in tallies && c in tallies && d in tallies
    requires tallies[a] == [2, 0, 0, 0, 0, 1, 0] && tallies[b] == [2, 0, 1, 0, 0, 0, 0]
    requires tallies[c] == [2, 0, 0, 0, 0, 0, 1] && tallies[d] == [2, 0, 0, 0, 1, 0, 0]
    ensures Tallied(tallies, [a, b, c, d], ms)
    ensures SortCandidates(tallies, [a, b, c, d], ms) == [b, d, a, c]
  {
    SameMedianA();
    SameMedianB();
    SameMedianC();
    SameMedianD();
    SortSameMedian(tallies, ms, a, b, c, d);
  }

  /** `test_run_with_array` on the test suite's own scale and names. */
  lemma RunWithArray()
    ensures SevenMentions(TestScale) && RowsFit(TwoJudges(TestScale, "A", "B", "C"))
    ensures Deliberation(TwoJudges(TestScale, "A", "B", "C"), TestScale, 0).Ok?
    ensures Deliberation(TwoJudges(TestScale, "A", "B", "C"), TestScale, 0).value.0 == ["B", "A", "C"]
  {
    TestScaleFits();
    TwoJudgesRanking(TestScale, "A", "B", "C");
  }

  /** `test_dumb_deliberation_with_one_candidate`, its text already split
      into cells. */
  lemma DumbDeliberationWithOneCandidate()
    ensures SevenMentions(TestScale) && RowsFit(OneCandidate(TestScale, "A"))
    ensures Deliberation(OneCandidate(TestScale, "A"), TestScale, 0).Ok?
    ensures Deliberation(OneCandidate(TestScale, "A"), TestScale, 0).value.0 == ["A"]
  {
    TestScaleFits();
    OneCandidateRanking(TestScale, "A");
  }

  /** `test_deliberation_with_one_judge`, its text already split into
      cells. */
  lemma DeliberationWithOneJudge()
    ensures SevenMentions(TestScale) && RowsFit(OneJudge(TestScale, "A", "B", "C", "D"))
    ensures Deliberation(OneJudge(TestScale, "A", "B", "C", "D"), TestScale, 0).Ok?
    ensures Deliberation(OneJudge(TestScale, "A", "B", "C", "D"), TestScale, 0).value.0 == ["D", "B", "C", "A"]
  {
    TestScaleFits();
    OneJudgeRanking(TestScale, "A", "B", "C", "D");
  }

  /** `test_deliberation_with_same_median_mention`, its text already split
      into cells. */
  lemma DeliberationWithSameMedianMention()
    ensures SevenMentions(TestScale) && RowsFit(SameMedian(TestScale, "A", "B", "C", "D"))
    ensures Deliberation(SameMedian(TestScale, "A", "B", "C", "D"), TestScale, 0).Ok?
    ensures Deliberation(SameMedian(TestScale, "A", "B", "C", "D"), TestScale, 0).value.0 == ["B", "D", "A", "C"]
  {
    TestScaleFits();
    SameMedianRanking(TestScale, "A", "B", "C", "D");
  }

  // ---------------------------------------------------------------------
  // No header: the candidates are named after their columns.

  /** An empty header row and one judge for one column: the candidate is
      named "Candidate A" and is the whole ranking. */
  lemma HeaderlessRanking(ms: seq<string>)
    requires SevenMentions(ms)
    ensures RowsFit([[], [ms[2]]]) && Distinct(ms) && |ms| > 0
    ensures Deliberation([[], [ms[2]]], ms, 0).Ok?
    ensures Deliberation([[], [ms[2]]], ms, 0).value.0 == ["Candidate A"]
  {
    var rows: seq<seq<string>> := [[], [ms[2]]];
    assert Cells(rows[0], 0) == [] && Cells(rows[1], 0) == rows[1];
    assert ms[2] in ms;
    assert FirstData(rows, 0, 1) == 1;
    SynthNamesFirst(1);
    assert CandidateList(rows, 0) == SynthNames(1) == ["Candidate A"];
    assert DataRows(rows, 0, 2) == 1;
    DeliberationSucceeds(rows, ms, 0);
    DeliberationRanksCandidates(rows, ms, 0);
    OnlyOrder(Deliberation(rows, ms, 0).value.0, "Candidate A");
  }

  // ---------------------------------------------------------------------
  // Solver-cost helpers, with no counterpart in the program: list and map
  // displays written two ways, and tallies assembled one judgment at a
  // time. Kept apart from the ranking facts, in whose presence the solver
  // finds them slowly.

  lemma TestScaleFits()
    ensures SevenMentions(TestScale)
  {
  }

  /** Counting one more judgment of the mention at position `p`. */
  lemma AddAllSnoc(ms: seq<string>, t: Tally, list: seq<string>, p: nat)
    requires SevenMentions(ms) && |t| == 7 && p < 7 && forall m :: m in list ==> m in ms
    ensures AddAll(t, list + [ms[p]], ms) == Inc(AddAll(t, list, ms), p)
  {
    IndexOfDistinct(ms, p);
    assert (list + [ms[p]])[..|list|] == list;
  }

  lemma TalliedThree(tallies: map<string, Tally>, ms: seq<string>, a: string, b: string, c: string)
    requires |ms| > 0 && HasTally(tallies, a, ms) && HasTally(tallies, b, ms) && HasTally(tallies, c, ms)
    ensures Tallied(tallies, [a, b, c], ms) && Tallied(tallies, [b, c], ms) && Tallied(tallies, [c], ms)
  {
    forall i | 0 <= i < 3
      ensures HasTally(tallies, [a, b, c][i], ms)
    {
      if i == 0 {
      } else if i == 1 {
      } else {
      }
    }
    assert [a, b, c][1..] == [b, c];
  }

  lemma TalliedFour(tallies: map<string, Tally>, ms: seq<string>, a: string, b: string, c: string, d: string)
    requires |ms| > 0 && HasTally(tallies, a, ms) && HasTally(tallies, b, ms)
    requires HasTally(tallies, c, ms) && HasTally(tallies, d, ms)
    ensures Tallied(tallies, [a, b, c, d], ms) && Tallied(tallies, [b, c, d], ms)
  {
    forall i | 0 <= i < 4
      ensures HasTally(tallies, [a, b, c, d][i], ms)
    {
      if i == 0 {
      } else if i == 1 {
      } else if i == 2 {
      } else {
      }
    }
    TalliedThree(tallies, ms, b, c, d);
  }

  lemma Pair(x: string, y: string)
    ensures [x] + [] == [x] && [x] + [y] == [x, y] && [x] + ([y] + []) == [x, y]
  {
  }

  lemma Triple(x: string, y: string, z: string)
    ensures [x] + [y, z] == [x, y, z] && [x] + ([y] + [z]) == [x, y, z]
    ensures [x] + ([y] + ([z] + [])) == [x, y, z]
  {
  }

  lemma Quad(x: string, y: string, z: string, w: string)
    ensures [x] + [y, z, w] == [x, y, z, w] && [x] + ([y] + ([z] + [w])) == [x, y, z, w]
    ensures [x] + ([y] + ([z] + ([w] + []))) == [x, y, z, w]
  {
  }

  /** A map is known once its keys and their values are. */
  lemma MapOfThree(m: map<string, Tally>, a: string, b: string, c: string, ta: Tally, tb: Tally, tc: Tally)
    requires Distinct([a, b, c]) && forall k :: k in m <==> k in [a, b, c]
    requires a in m && b in m && c in m && m[a] == ta && m[b] == tb && m[c] == tc
    ensures m == map[a := ta, b := tb, c := tc]
  {
  }

  lemma MapOfOne(m: map<string, Tally>, a: string, t: Tally)
    requires (forall k :: k in m <==> k in [a]) && a in m && m[a] == t
    ensures m == map[a := t]
  {
  }
}
