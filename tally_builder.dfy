/** `deliberate`: reads the judgment rows (the first row names the
    candidates, each later row holds one judge's mentions, one column per
    candidate), collects every candidate's judgments, turns them into
    tallies over the scale and ranks the candidates by those tallies.

    The computation is written twice: as functions that fold over the rows
    (the specification the properties are proved about) and as the method
    `Deliberate`, with the source's loops, proved to compute the same
    result. */
module TallyBuilder {
  import opened GradeScale
  import opened MedianResolver
  import opened RankingEngine

  /** The ways a deliberation stops without a ranking. */
  datatype Failure =
    | UnknownMention(mention: string, row: nat) // a cell outside the scale: the run exits
    | RowTooShort(row: nat)                     // fewer cells than candidates: IndexError
    | MissingJudgments(candidate: string)       // a candidate without judgments: KeyError

  datatype Result<T> = Ok(value: T) | Err(failure: Failure)

  /** The state of the scan after some rows: the candidate names and, per
      name, the mentions collected so far, in row order. */
  datatype Scan = Scan(candidates: seq<string>, judgments: map<string, seq<string>>)

  /** The synthesised names are `"Candidate "` followed by one character;
      past this many columns that character would be a surrogate. */
  const MaxColumns: nat := 0xD800 - 65

  /** Every row is narrow enough for the synthesised names to exist. */
  predicate RowsFit(rows: seq<seq<string>>)
  {
    forall r :: 0 <= r < |rows| ==> |rows[r]| <= MaxColumns
  }

  /** `row[skip_cols:]`: the cells after the first `skipCols`, none when the
      row is that short. */
  function Cells(row: seq<string>, skipCols: nat): (cells: seq<string>)
    ensures |cells| <= |row|
    ensures forall j :: 0 <= j < |cells| ==> skipCols + j < |row| && cells[j] == row[skipCols + j]
  {
    if skipCols <= |row| then row[skipCols..] else []
  }

  /** A cell the scan accepts: blank, or a mention of the scale. */
  predicate Known(cell: string, mentions: seq<string>)
  {
    cell == "" || cell in mentions
  }

  /** A blank cell stands for the lowest mention of the scale. */
  function NormCell(cell: string, mentions: seq<string>): (m: string)
    requires |mentions| > 0
    ensures Known(cell, mentions) ==> m in mentions
  {
    if cell == "" then mentions[|mentions| - 1] else cell
  }

  /** Index of the first cell outside the scale, `|cells|` when there is
      none. */
  function FirstUnknown(cells: seq<string>, mentions: seq<string>): (k: nat)
    ensures k <= |cells|
    ensures forall j :: 0 <= j < k ==> Known(cells[j], mentions)
    ensures k < |cells| ==> !Known(cells[k], mentions)
  {
    if cells == [] then 0
    else if !Known(cells[0], mentions) then 0
    else 1 + FirstUnknown(cells[1..], mentions)
  }

  /** The cell check of one data row: the first unknown cell stops the run;
      otherwise blanks become the lowest mention and the rest is kept. */
  function Normalize(cells: seq<string>, mentions: seq<string>, row: nat): (r: Result<seq<string>>)
    requires |mentions| > 0
    ensures r.Ok? <==> forall j :: 0 <= j < |cells| ==> Known(cells[j], mentions)
    ensures r.Ok? ==> |r.value| == |cells|
    ensures r.Ok? ==> forall j :: 0 <= j < |cells| ==> r.value[j] in mentions
    ensures r.Ok? ==> forall j :: 0 <= j < |cells| ==>
              r.value[j] == (if cells[j] == "" then mentions[|mentions| - 1] else cells[j])
    ensures r.Err? ==> (r.failure.UnknownMention? && r.failure.row == row &&
                        r.failure.mention in cells && !Known(r.failure.mention, mentions))
  {
    var k := FirstUnknown(cells, mentions);
    if k < |cells| then Err(UnknownMention(cells[k], row))
    else Ok(seq(|cells|, j requires 0 <= j < |cells| => NormCell(cells[j], mentions)))
  }

  /** The name `deliberate` gives to the candidate of column `i` when the
      header is empty, as written: `"Candidate " + chr(64 + i)`. */
  function CandidateNameAsWritten(i: nat): (name: string)
    requires i < MaxColumns
    ensures |name| == 11 && name[..10] == "Candidate "
    ensures 1 <= i <= 26 <==> 'A' <= name[10] <= 'Z'
  {
    "Candidate " + [(64 + i) as char]
  }

  /** As written, the first column is named after `chr(64)`, the character
      just before `A`, and every column takes the letter meant for the one
      before it. */
  lemma FirstNameAsWritten()
    ensures CandidateNameAsWritten(0) == "Candidate @" != "Candidate A"
    ensures CandidateNameAsWritten(1) == "Candidate A"
  {
  }

  /** The name meant for the candidate of column `i`: "Candidate A",
      "Candidate B", and so on. */
  function CandidateName(i: nat): string
    requires i < MaxColumns
  {
    "Candidate " + [(65 + i) as char]
  }

  /** The first 26 columns are named after the letters A to Z, in order,
      starting with "Candidate A"; each name is the one the code as written
      gives to the next column. */
  lemma CandidateNameLettered(i: nat)
    requires i < MaxColumns - 1
    ensures |CandidateName(i)| == 11 && CandidateName(i)[..10] == "Candidate "
    ensures CandidateName(i) == CandidateNameAsWritten(i + 1)
    ensures i == 0 ==> CandidateName(i) == "Candidate A"
    ensures i < 26 <==> 'A' <= CandidateName(i)[10] <= 'Z'
  {
  }

  /** The names given to `n` columns; no two coincide. */
  function SynthNames(n: nat): (names: seq<string>)
    requires n <= MaxColumns
    ensures |names| == n && Distinct(names)
  {
    var names := seq(n, i requires 0 <= i < n => CandidateName(i));
    assert forall i, j :: 0 <= i < j < n ==> names[i][10] != names[j][10];
    names
  }

  /** With an empty header, the first candidate is "Candidate A". */
  lemma SynthNamesFirst(n: nat)
    requires 0 < n <= MaxColumns
    ensures SynthNames(n)[0] == "Candidate A"
  {
    CandidateNameLettered(0);
  }

  /** The judgments collected for `c` so far. */
  function Get(js: map<string, seq<string>>, c: string): seq<string>
  {
    if c in js then js[c] else []
  }

  /** Appends the cells of a row to the first `k` candidates' judgments:
      every candidate already judged keeps its list, each of the `k`
      candidates has one, and no one else appears. */
  function RecordUpTo(js: map<string, seq<string>>, cands: seq<string>, norm: seq<string>, k: nat)
    : (r: map<string, seq<string>>)
    requires k <= |cands| && k <= |norm|
    ensures forall c :: c in js ==> c in r
    ensures forall j :: 0 <= j < k ==> cands[j] in r
  {
    if k == 0 then js
    else
      var prev := RecordUpTo(js, cands, norm, k - 1);
      prev[cands[k - 1] := Get(prev, cands[k - 1]) + [norm[k - 1]]]
  }

  /** Every judgment collected is a mention of the scale. */
  predicate AllKnown(js: map<string, seq<string>>, mentions: seq<string>)
  {
    forall c, m :: c in js && m in js[c] ==> m in mentions
  }

  /** One data row: an empty row is skipped; otherwise the candidates are
      named from the row if the header gave none, the cells are checked
      and each candidate's cell is appended to its judgments. Only a
      non-empty row can stop the run, and the failure names that row; the
      names, once set, are kept; an accepted row has a cell per candidate. */
  function ScanRow(st: Scan, cells: seq<string>, mentions: seq<string>, row: nat): (r: Result<Scan>)
    requires |mentions| > 0 && |cells| <= MaxColumns
    ensures r.Err? ==> cells != [] && !r.failure.MissingJudgments? && r.failure.row == row
    ensures r.Ok? && st.candidates != [] ==> r.value.candidates == st.candidates
    ensures r.Ok? && cells != [] ==> |r.value.candidates| <= |cells|
  {
    if cells == [] then Ok(st)
    else
      var cands := if st.candidates == [] then SynthNames(|cells|) else st.candidates;
      match Normalize(cells, mentions, row)
      case Err(e) => Err(e)
      case Ok(norm) =>
        if |norm| < |cands| then Err(RowTooShort(row))
        else Ok(Scan(cands, RecordUpTo(st.judgments, cands, norm, |cands|)))
  }

  /** The scan of the first `k` rows: row 0 is the header. The header
      never stops the run; a failure names one of the data rows scanned. */
  function ScanRows(rows: seq<seq<string>>, mentions: seq<string>, skipCols: nat, k: nat): (r: Result<Scan>)
    requires k <= |rows| && |mentions| > 0 && RowsFit(rows)
    ensures r.Err? ==> !r.failure.MissingJudgments? && 1 <= r.failure.row < k
  {
    if k == 0 then Ok(Scan([], map[]))
    else
      match ScanRows(rows, mentions, skipCols, k - 1)
      case Err(e) => Err(e)
      case Ok(st) =>
        if k == 1 then Ok(Scan(Cells(rows[0], skipCols), st.judgments))
        else ScanRow(st, Cells(rows[k - 1], skipCols), mentions, k - 1)
  }

  /** A tally with no judgment. */
  function Zeros(n: nat): (t: Tally)
    ensures |t| == n && Total(t) == 0
  {
    var t := seq(n, p => 0);
    TotalZero(t);
    t
  }

  /** Adds one judgment of the mention at position `p`. */
  function Inc(t: Tally, p: nat): (r: Tally)
    requires p < |t|
    ensures |r| == |t| && Total(r) == Total(t) + 1
  {
    IncTotal(t, p);
    t[p := t[p] + 1]
  }

  lemma {:induction false} IncTotal(t: Tally, p: nat)
    requires p < |t|
    ensures Total(t[p := t[p] + 1]) == Total(t) + 1
  {
    if p > 0 {
      assert t[p := t[p] + 1][1..] == t[1..][p - 1 := t[p] + 1];
      IncTotal(t[1..], p - 1);
    }
  }

  /** Adds a list of judgments to a tally, one at a time. */
  function AddAll(t: Tally, list: seq<string>, mentions: seq<string>): (r: Tally)
    requires |t| == |mentions| && forall m :: m in list ==> m in mentions
    ensures |r| == |t| && Total(r) == Total(t) + |list|
  {
    if list == [] then t
    else
      var last := list[|list| - 1];
      assert last in list;
      Inc(AddAll(t, list[..|list| - 1], mentions), IndexOf(mentions, last))
  }

  /** The tallies of the first `k` candidates of the list; a name listed
      twice has its judgments counted once per listing. */
  function TalliesUpTo(cands: seq<string>, js: map<string, seq<string>>, mentions: seq<string>, k: nat)
    : (r: Result<map<string, Tally>>)
    requires k <= |cands| && |mentions| > 0 && AllKnown(js, mentions)
    ensures r.Ok? ==> (forall c :: c in r.value <==> c in cands[..k]) && Tallied(r.value, cands[..k], mentions)
    ensures r.Err? ==> (r.failure.MissingJudgments? &&
                        r.failure.candidate in cands[..k] && r.failure.candidate !in js)
  {
    if k == 0 then Ok(map[])
    else
      match TalliesUpTo(cands, js, mentions, k - 1)
      case Err(e) => Err(e)
      case Ok(tm) =>
        var c := cands[k - 1];
        assert cands[..k] == cands[..k - 1] + [c];
        if c !in js then Err(MissingJudgments(c))
        else
          var base := if c in tm then tm[c] else Zeros(|mentions|);
          Ok(tm[c := AddAll(base, js[c], mentions)])
  }

  /** The whole of `deliberate` on rows of cells: the ranking and the
      tallies, or the failure that stops it. */
  function Deliberation(rows: seq<seq<string>>, mentions: seq<string>, skipCols: nat)
    : (r: Result<(seq<string>, map<string, Tally>)>)
    requires Distinct(mentions) && |mentions| > 0 && RowsFit(rows)
    ensures r.Ok? ==> Tallied(r.value.1, r.value.0, mentions)
  {
    match ScanRows(rows, mentions, skipCols, |rows|)
    case Err(e) => Err(e)
    case Ok(st) =>
      ScanKnown(rows, mentions, skipCols, |rows|);
      match TalliesUpTo(st.candidates, st.judgments, mentions, |st.candidates|)
      case Err(e) => Err(e)
      case Ok(tallies) =>
        assert st.candidates[..|st.candidates|] == st.candidates;
        Ok((SortCandidates(tallies, st.candidates, mentions), tallies))
  }

  // ---------------------------------------------------------------------
  // Facts the method and the definitions above need.

  lemma {:induction false} RecordKnown(js: map<string, seq<string>>, cands: seq<string>, norm: seq<string>,
                                       k: nat, mentions: seq<string>)
    requires k <= |cands| && k <= |norm|
    requires AllKnown(js, mentions) && forall j :: 0 <= j < |norm| ==> norm[j] in mentions
    ensures AllKnown(RecordUpTo(js, cands, norm, k), mentions)
  {
    if k > 0 {
      RecordKnown(js, cands, norm, k - 1, mentions);
    }
  }

  /** Every judgment the scan collects is a mention of the scale. */
  lemma {:induction false} ScanKnown(rows: seq<seq<string>>, mentions: seq<string>, skipCols: nat, k: nat)
    requires k <= |rows| && |mentions| > 0 && RowsFit(rows)
    ensures ScanRows(rows, mentions, skipCols, k).Ok? ==>
              AllKnown(ScanRows(rows, mentions, skipCols, k).value.judgments, mentions)
  {
    if k > 1 {
      ScanKnown(rows, mentions, skipCols, k - 1);
      var prev := ScanRows(rows, mentions, skipCols, k - 1);
      if prev.Ok? {
        var cells := Cells(rows[k - 1], skipCols);
        var norm := Normalize(cells, mentions, k - 1);
        if cells != [] && norm.Ok? {
          var cands := if prev.value.candidates == [] then SynthNames(|cells|) else prev.value.candidates;
          if |cands| <= |norm.value| {
            RecordKnown(prev.value.judgments, cands, norm.value, |cands|, mentions);
          }
        }
      }
    }
  }

  /** Once the scan fails, it fails the same way to the end. */
  lemma {:induction false} ScanFailureSticks(rows: seq<seq<string>>, mentions: seq<string>, skipCols: nat,
                                             k: nat, n: nat)
    requires k <= n <= |rows| && |mentions| > 0 && RowsFit(rows)
    requires ScanRows(rows, mentions, skipCols, k).Err?
    ensures ScanRows(rows, mentions, skipCols, n) == ScanRows(rows, mentions, skipCols, k)
    decreases n - k
  {
    if k < n {
      ScanFailureSticks(rows, mentions, skipCols, k, n - 1);
    }
  }

  /** The scan of one more data row continues from the scan so far. */
  lemma ScanStep(rows: seq<seq<string>>, mentions: seq<string>, skipCols: nat, r: nat)
    requires 1 <= r < |rows| && |mentions| > 0 && RowsFit(rows)
    requires ScanRows(rows, mentions, skipCols, r).Ok?
    ensures |Cells(rows[r], skipCols)| <= MaxColumns
    ensures ScanRows(rows, mentions, skipCols, r + 1)
            == ScanRow(ScanRows(rows, mentions, skipCols, r).value, Cells(rows[r], skipCols), mentions, r)
  {
  }

  /** The tallying of one more candidate continues from the tallies so far. */
  lemma TallyStep(cands: seq<string>, js: map<string, seq<string>>, mentions: seq<string>, i: nat,
                  tallies: map<string, Tally>)
    requires i < |cands| && |mentions| > 0 && AllKnown(js, mentions)
    requires TalliesUpTo(cands, js, mentions, i) == Ok(tallies)
    ensures cands[i] !in js ==> TalliesUpTo(cands, js, mentions, |cands|) == Err(MissingJudgments(cands[i]))
    ensures cands[i] in js ==>
              TalliesUpTo(cands, js, mentions, i + 1)
              == Ok(tallies[cands[i] := AddAll(if cands[i] in tallies then tallies[cands[i]] else Zeros(|mentions|),
                                                js[cands[i]], mentions)])
  {
    if cands[i] !in js {
      TallyFailureSticks(cands, js, mentions, i + 1, |cands|);
    }
  }

  /** Once the tallying fails, it fails the same way to the end. */
  lemma {:induction false} TallyFailureSticks(cands: seq<string>, js: map<string, seq<string>>,
                                              mentions: seq<string>, k: nat, n: nat)
    requires k <= n <= |cands| && |mentions| > 0 && AllKnown(js, mentions)
    requires TalliesUpTo(cands, js, mentions, k).Err?
    ensures TalliesUpTo(cands, js, mentions, n) == TalliesUpTo(cands, js, mentions, k)
    decreases n - k
  {
    if k < n {
      TallyFailureSticks(cands, js, mentions, k, n - 1);
    }
  }

  // ---------------------------------------------------------------------
  // The source's loops.

  /** The cell loop of `deliberate`: blanks are replaced in place by the
      lowest mention; the first cell outside the scale stops the run. */
  method CheckCells(cells: seq<string>, mentions: seq<string>, row: nat) returns (r: Result<seq<string>>)
    requires |mentions| > 0
    ensures r == Normalize(cells, mentions, row)
  {
    var judgments := cells;
    for i := 0 to |judgments|
      invariant |judgments| == |cells|
      invariant forall j :: 0 <= j < i ==> Known(cells[j], mentions) && judgments[j] == NormCell(cells[j], mentions)
      invariant forall j :: i <= j < |cells| ==> judgments[j] == cells[j]
    {
      if judgments[i] == "" {
        judgments := judgments[i := mentions[|mentions| - 1]];
      } else if judgments[i] !in mentions {
        assert FirstUnknown(cells, mentions) == i;
        return Err(UnknownMention(judgments[i], row));
      }
    }
    assert FirstUnknown(cells, mentions) == |cells|;
    assert judgments == Normalize(cells, mentions, row).value;
    return Ok(judgments);
  }

  /** The append loop of `deliberate`: each candidate's cell goes to the
      end of its judgments; a row with fewer cells than candidates fails
      at the first missing cell. */
  method RecordRow(js: map<string, seq<string>>, cands: seq<string>, judgments: seq<string>, row: nat)
    returns (r: Result<map<string, seq<string>>>)
    ensures |judgments| < |cands| ==> r == Err(RowTooShort(row))
    ensures |cands| <= |judgments| ==> r == Ok(RecordUpTo(js, cands, judgments, |cands|))
  {
    var everyones := js;
    for i := 0 to |cands|
      invariant i <= |judgments|
      invariant everyones == RecordUpTo(js, cands, judgments, i)
    {
      if i >= |judgments| {
        return Err(RowTooShort(row));
      }
      var candidate := cands[i];
      if candidate !in everyones {
        everyones := everyones[candidate := []];
      }
      everyones := everyones[candidate := everyones[candidate] + [judgments[i]]];
    }
    return Ok(everyones);
  }

  /** The counting loop of `deliberate` for one candidate: each judgment
      adds one to its mention's count. */
  method CountJudgments(tally: Tally, list: seq<string>, mentions: seq<string>, positions: map<string, nat>)
    returns (t: Tally)
    requires Distinct(mentions) && |tally| == |mentions| && forall m :: m in list ==> m in mentions
    requires forall i :: 0 <= i < |mentions| ==> mentions[i] in positions && positions[mentions[i]] == i
    ensures t == AddAll(tally, list, mentions)
  {
    t := tally;
    for j := 0 to |list|
      invariant t == AddAll(tally, list[..j], mentions)
    {
      var mention := list[j];
      assert mention in list;
      var p := IndexOf(mentions, mention);
      assert positions[mention] == p;
      assert list[..j + 1][..j] == list[..j];
      t := t[positions[mention] := t[positions[mention]] + 1];
    }
    assert list[..|list|] == list;
  }

  /** One data row of the main loop of `deliberate`: names the candidates
      if the header gave none, checks the cells and records them. */
  method ScanDataRow(candidates: seq<string>, everyones: map<string, seq<string>>, judgments: seq<string>,
                     mentions: seq<string>, row: nat)
    returns (r: Result<Scan>)
    requires |mentions| > 0 && 0 < |judgments| <= MaxColumns
    ensures r == ScanRow(Scan(candidates, everyones), judgments, mentions, row)
  {
    var cands := candidates;
    if cands == [] {
      cands := SynthNames(|judgments|);
    }
    var checked := CheckCells(judgments, mentions, row);
    if checked.Err? {
      return Err(checked.failure);
    }
    var recorded := RecordRow(everyones, cands, checked.value, row);
    if recorded.Err? {
      return Err(recorded.failure);
    }
    return Ok(Scan(cands, recorded.value));
  }

  /** A new tally: a count of zero for every mention of the scale. */
  method FreshTally(mentions: seq<string>) returns (zeros: Tally)
    ensures zeros == Zeros(|mentions|)
  {
    zeros := [];
    for p := 0 to |mentions|
      invariant zeros == Zeros(p)
    {
      zeros := zeros + [0];
    }
  }

  /** The tally loop of `deliberate`: a fresh candidate starts from a zero
      count for every mention; a candidate missing from the collected
      judgments fails. */
  method TallyCandidates(cands: seq<string>, js: map<string, seq<string>>, mentions: seq<string>)
    returns (r: Result<map<string, Tally>>)
    requires Distinct(mentions) && |mentions| > 0 && AllKnown(js, mentions)
    ensures r == TalliesUpTo(cands, js, mentions, |cands|)
  {
    var positions := GetPositions(mentions);
    var tallies: map<string, Tally> := map[];
    for i := 0 to |cands|
      invariant TalliesUpTo(cands, js, mentions, i) == Ok(tallies)
    {
      var candidate := cands[i];
      TallyStep(cands, js, mentions, i, tallies);
      if candidate !in js {
        return Err(MissingJudgments(candidate));
      }
      assert candidate in tallies ==> HasTally(tallies, candidate, mentions);
      var t := TallyCandidate(tallies, candidate, js[candidate], mentions, positions);
      tallies := tallies[candidate := t];
    }
    return Ok(tallies);
  }

  /** One turn of the tally loop: the candidate's tally so far, or a fresh
      one, with its judgments counted. */
  method TallyCandidate(tallies: map<string, Tally>, candidate: string, list: seq<string>,
                        mentions: seq<string>, positions: map<string, nat>)
    returns (t: Tally)
    requires Distinct(mentions) && forall m :: m in list ==> m in mentions
    requires forall i :: 0 <= i < |mentions| ==> mentions[i] in positions && positions[mentions[i]] == i
    requires candidate in tallies ==> HasTally(tallies, candidate, mentions)
    ensures t == AddAll(if candidate in tallies then tallies[candidate] else Zeros(|mentions|), list, mentions)
  {
    var base: Tally;
    if candidate in tallies {
      base := tallies[candidate];
    } else {
      base := FreshTally(mentions);
    }
    t := CountJudgments(base, list, mentions, positions);
  }

  /** `deliberate` as the source runs it. */
  method Deliberate(rows: seq<seq<string>>, mentions: seq<string>, skipCols: nat)
    returns (result: Result<(seq<string>, map<string, Tally>)>)
    requires Distinct(mentions) && |mentions| > 0 && RowsFit(rows)
    ensures result == Deliberation(rows, mentions, skipCols)
  {
    var candidates: seq<string> := [];
    var everyones: map<string, seq<string>> := map[];
    for r := 0 to |rows|
      invariant ScanRows(rows, mentions, skipCols, r) == Ok(Scan(candidates, everyones))
    {
      var judgments := Cells(rows[r], skipCols);
      if r == 0 {
        candidates := judgments;
      } else if judgments == [] {
        ScanStep(rows, mentions, skipCols, r);
      } else {
        ScanStep(rows, mentions, skipCols, r);
        var scanned := ScanDataRow(candidates, everyones, judgments, mentions, r);
        if scanned.Err? {
          ScanFailureSticks(rows, mentions, skipCols, r + 1, |rows|);
          return Err(scanned.failure);
        }
        candidates, everyones := scanned.value.candidates, scanned.value.judgments;
      }
    }
    ScanKnown(rows, mentions, skipCols, |rows|);
    var tallied := TallyCandidates(candidates, everyones, mentions);
    if tallied.Err? {
      return Err(tallied.failure);
    }
    assert candidates[..|candidates|] == candidates;
    var ranking := SortCandidates(tallied.value, candidates, mentions);
    return Ok((ranking, tallied.value));
  }
}
