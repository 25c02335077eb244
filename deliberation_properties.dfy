/** What `deliberate` computes, stated without its loops: which names it
    ranks, what each tally counts, and when it stops without a ranking. */
module DeliberationProperties {
  import opened GradeScale
  import opened MedianResolver
  import opened RankingEngine
  import opened TallyBuilder

  /** The cells of a row are blank or mentions of the scale. */
  predicate AllCellsKnown(cells: seq<string>, mentions: seq<string>)
  {
    forall j :: 0 <= j < |cells| ==> Known(cells[j], mentions)
  }

  /** Number of data rows among the first `k` rows: rows after the header
      with at least one cell once the skipped columns are dropped. */
  function DataRows(rows: seq<seq<string>>, skipCols: nat, k: nat): nat
    requires k <= |rows|
  {
    if k <= 1 then 0
    else DataRows(rows, skipCols, k - 1) + (if Cells(rows[k - 1], skipCols) != [] then 1 else 0)
  }

  /** The judgments in column `i` of the first `k` rows, one per data row,
      a blank cell read as the lowest mention. */
  function Column(rows: seq<seq<string>>, mentions: seq<string>, skipCols: nat, k: nat, i: nat): seq<string>
    requires k <= |rows| && |mentions| > 0
  {
    if k <= 1 then []
    else
      var cells := Cells(rows[k - 1], skipCols);
      Column(rows, mentions, skipCols, k - 1, i)
      + (if cells != [] && i < |cells| then [NormCell(cells[i], mentions)] else [])
  }

  /** Index of the first data row at or after row `r`, `|rows|` if none. */
  function FirstData(rows: seq<seq<string>>, skipCols: nat, r: nat): (f: nat)
    requires r <= |rows|
    ensures r <= f <= |rows|
    ensures f < |rows| ==> Cells(rows[f], skipCols) != []
    decreases |rows| - r
  {
    if r == |rows| then |rows|
    else if Cells(rows[r], skipCols) != [] then r
    else FirstData(rows, skipCols, r + 1)
  }

  /** The candidate names once `k` rows are read: the header's cells, or,
      when the header has none, names for the columns of the first data
      row. */
  function Names(rows: seq<seq<string>>, skipCols: nat, k: nat): seq<string>
    requires k <= |rows| && RowsFit(rows)
  {
    if k == 0 then []
    else if Cells(rows[0], skipCols) != [] then Cells(rows[0], skipCols)
    else
      var f := FirstData(rows, skipCols, 1);
      if f < k then SynthNames(|Cells(rows[f], skipCols)|) else []
  }

  /** The candidates `deliberate` ranks. */
  function CandidateList(rows: seq<seq<string>>, skipCols: nat): seq<string>
    requires RowsFit(rows)
  {
    Names(rows, skipCols, |rows|)
  }

  // ---------------------------------------------------------------------
  // Rows.

  /** No data row among the first `k` rows means every row after the
      header is empty. */
  lemma {:induction false} NoDataRows(rows: seq<seq<string>>, skipCols: nat, k: nat)
    requires k <= |rows|
    ensures DataRows(rows, skipCols, k) == 0 <==> forall r :: 1 <= r < k ==> Cells(rows[r], skipCols) == []
  {
    if k > 1 {
      NoDataRows(rows, skipCols, k - 1);
    }
  }

  /** Skipping empty rows does not move the first data row. */
  lemma {:induction false} FirstDataSkips(rows: seq<seq<string>>, skipCols: nat, r: nat, k: nat)
    requires r <= k <= |rows|
    requires forall q :: r <= q < k ==> Cells(rows[q], skipCols) == []
    ensures FirstData(rows, skipCols, r) == FirstData(rows, skipCols, k)
    decreases k - r
  {
    if r < k {
      FirstDataSkips(rows, skipCols, r + 1, k);
    }
  }

  // ---------------------------------------------------------------------
  // Recording a row.

  /** Recording a row adds the candidates' names to the collected ones. */
  lemma {:induction false} RecordKeys(js: map<string, seq<string>>, cands: seq<string>, norm: seq<string>, k: nat)
    requires k <= |cands| && k <= |norm|
    ensures forall c :: c in RecordUpTo(js, cands, norm, k) <==> c in js || c in cands[..k]
  {
    if k > 0 {
      RecordKeys(js, cands, norm, k - 1);
      assert cands[..k] == cands[..k - 1] + [cands[k - 1]];
    }
  }

  /** With distinct names, recording a row appends each candidate's own
      cell to its judgments. */
  lemma {:induction false} RecordDistinct(js: map<string, seq<string>>, cands: seq<string>, norm: seq<string>,
                                          k: nat, i: nat)
    requires k <= |cands| && k <= |norm| && i < |cands| && Distinct(cands)
    ensures Get(RecordUpTo(js, cands, norm, k), cands[i]) == Get(js, cands[i]) + (if i < k then [norm[i]] else [])
  {
    if k > 0 {
      RecordDistinct(js, cands, norm, k - 1, i);
    }
  }

  // ---------------------------------------------------------------------
  // The scan.

  /** What the scan of the first `k` rows has gathered. */
  predicate ScanInv(rows: seq<seq<string>>, mentions: seq<string>, skipCols: nat, k: nat, st: Scan)
    requires 1 <= k <= |rows| && |mentions| > 0 && RowsFit(rows)
  {
    && st.candidates == Names(rows, skipCols, k)
    && (st.candidates == [] ==> DataRows(rows, skipCols, k) == 0)
    && (DataRows(rows, skipCols, k) == 0 ==> st.judgments == map[])
    && (forall c :: c in st.judgments ==> c in st.candidates)
    && (DataRows(rows, skipCols, k) > 0 ==> forall c :: c in st.candidates ==> c in st.judgments)
    && (forall r :: 1 <= r < k && Cells(rows[r], skipCols) != [] ==>
          AllCellsKnown(Cells(rows[r], skipCols), mentions) && |st.candidates| <= |Cells(rows[r], skipCols)|)
    && (Distinct(st.candidates) ==> forall i :: 0 <= i < |st.candidates| ==>
          Get(st.judgments, st.candidates[i]) == Column(rows, mentions, skipCols, k, i))
  }

  lemma ScanInvHeader(rows: seq<seq<string>>, mentions: seq<string>, skipCols: nat)
    requires 1 <= |rows| && |mentions| > 0 && RowsFit(rows)
    ensures ScanRows(rows, mentions, skipCols, 1).Ok?
    ensures ScanInv(rows, mentions, skipCols, 1, ScanRows(rows, mentions, skipCols, 1).value)
  {
  }

  /** An empty row changes nothing. */
  lemma ScanInvEmptyRow(rows: seq<seq<string>>, mentions: seq<string>, skipCols: nat, k: nat, st: Scan)
    requires 1 <= k < |rows| && |mentions| > 0 && RowsFit(rows)
    requires Cells(rows[k], skipCols) == []
    requires ScanInv(rows, mentions, skipCols, k, st)
    ensures ScanInv(rows, mentions, skipCols, k + 1, st)
  {
    assert DataRows(rows, skipCols, k + 1) == DataRows(rows, skipCols, k);
    forall i | 0 <= i < |st.candidates|
      ensures Column(rows, mentions, skipCols, k + 1, i) == Column(rows, mentions, skipCols, k, i)
    {
    }
  }

  /** The names the scan holds when it reaches the first data row. */
  lemma NamesAtFirstData(rows: seq<seq<string>>, mentions: seq<string>, skipCols: nat, k: nat, st: Scan)
    requires 1 <= k < |rows| && |mentions| > 0 && RowsFit(rows)
    requires Cells(rows[k], skipCols) != []
    requires ScanInv(rows, mentions, skipCols, k, st)
    ensures Names(rows, skipCols, k + 1)
            == if st.candidates == [] then SynthNames(|Cells(rows[k], skipCols)|) else st.candidates
  {
    if Cells(rows[0], skipCols) == [] {
      var f := FirstData(rows, skipCols, 1);
      if st.candidates == [] {
        NoDataRows(rows, skipCols, k);
        FirstDataSkips(rows, skipCols, 1, k);
      } else {
        assert f < k;
      }
    }
  }

  /** The candidates and the judgments recorded for a data row the scan
      accepts. */
  function Accepted(st: Scan, cells: seq<string>, mentions: seq<string>, row: nat): (r: Scan)
    requires |mentions| > 0 && 0 < |cells| <= MaxColumns
    requires ScanRow(st, cells, mentions, row).Ok?
    ensures ScanRow(st, cells, mentions, row) == Ok(r)
    ensures r.candidates == if st.candidates == [] then SynthNames(|cells|) else st.candidates
    ensures |r.candidates| <= |cells| && AllCellsKnown(cells, mentions)
  {
    ScanRow(st, cells, mentions, row).value
  }

  /** The keys of the collected judgments after a data row: every
      candidate, and nothing else. */
  lemma DataRowKeys(st: Scan, cells: seq<string>, mentions: seq<string>, row: nat)
    requires |mentions| > 0 && 0 < |cells| <= MaxColumns
    requires forall c :: c in st.judgments ==> c in st.candidates
    requires ScanRow(st, cells, mentions, row).Ok?
    ensures var st' := Accepted(st, cells, mentions, row);
            (forall c :: c in st'.judgments <==> c in st'.candidates) && st'.candidates != []
  {
    var cands := if st.candidates == [] then SynthNames(|cells|) else st.candidates;
    var norm := Normalize(cells, mentions, row).value;
    RecordKeys(st.judgments, cands, norm, |cands|);
    assert cands[..|cands|] == cands;
  }

  /** The columns after a data row, when the names are distinct: each
      candidate's judgments grow by its own cell of the row. */
  lemma DataRowColumns(rows: seq<seq<string>>, mentions: seq<string>, skipCols: nat, k: nat, st: Scan)
    requires 1 <= k < |rows| && |mentions| > 0 && RowsFit(rows)
    requires Cells(rows[k], skipCols) != []
    requires ScanInv(rows, mentions, skipCols, k, st)
    requires ScanRow(st, Cells(rows[k], skipCols), mentions, k).Ok?
    ensures var st' := Accepted(st, Cells(rows[k], skipCols), mentions, k);
            Distinct(st'.candidates) ==> forall i :: 0 <= i < |st'.candidates| ==>
              Get(st'.judgments, st'.candidates[i]) == Column(rows, mentions, skipCols, k + 1, i)
  {
    var cells := Cells(rows[k], skipCols);
    var cands := if st.candidates == [] then SynthNames(|cells|) else st.candidates;
    var norm := Normalize(cells, mentions, k).value;
    if Distinct(cands) {
      forall i | 0 <= i < |cands|
        ensures Get(RecordUpTo(st.judgments, cands, norm, |cands|), cands[i])
                == Column(rows, mentions, skipCols, k + 1, i)
      {
        RecordDistinct(st.judgments, cands, norm, |cands|, i);
        assert norm[i] == NormCell(cells[i], mentions);
        if st.candidates == [] {
          ColumnEmpty(rows, mentions, skipCols, k, i);
        }
      }
    }
  }

  /** A data row the scan accepts keeps what the scan has gathered. */
  lemma ScanInvDataRow(rows: seq<seq<string>>, mentions: seq<string>, skipCols: nat, k: nat, st: Scan)
    requires 1 <= k < |rows| && |mentions| > 0 && RowsFit(rows)
    requires Cells(rows[k], skipCols) != []
    requires ScanInv(rows, mentions, skipCols, k, st)
    requires ScanRow(st, Cells(rows[k], skipCols), mentions, k).Ok?
    ensures ScanInv(rows, mentions, skipCols, k + 1, Accepted(st, Cells(rows[k], skipCols), mentions, k))
  {
    var st' := Accepted(st, Cells(rows[k], skipCols), mentions, k);
    NamesAtFirstData(rows, mentions, skipCols, k, st);
    assert st'.candidates == Names(rows, skipCols, k + 1);
    DataRowKeys(st, Cells(rows[k], skipCols), mentions, k);
    DataRowColumns(rows, mentions, skipCols, k, st);
    assert DataRows(rows, skipCols, k + 1) == DataRows(rows, skipCols, k) + 1;
    DataRowCells(rows, mentions, skipCols, k, st);
  }

  /** Every data row read so far has its cells on the scale and a cell for
      every candidate. */
  lemma DataRowCells(rows: seq<seq<string>>, mentions: seq<string>, skipCols: nat, k: nat, st: Scan)
    requires 1 <= k < |rows| && |mentions| > 0 && RowsFit(rows)
    requires Cells(rows[k], skipCols) != []
    requires ScanInv(rows, mentions, skipCols, k, st)
    requires ScanRow(st, Cells(rows[k], skipCols), mentions, k).Ok?
    ensures var st' := Accepted(st, Cells(rows[k], skipCols), mentions, k);
            forall r :: 1 <= r < k + 1 && Cells(rows[r], skipCols) != [] ==>
              AllCellsKnown(Cells(rows[r], skipCols), mentions) && |st'.candidates| <= |Cells(rows[r], skipCols)|
  {
    var st' := Accepted(st, Cells(rows[k], skipCols), mentions, k);
    NoDataRows(rows, skipCols, k);
    forall r | 1 <= r < k + 1 && Cells(rows[r], skipCols) != []
      ensures AllCellsKnown(Cells(rows[r], skipCols), mentions) && |st'.candidates| <= |Cells(rows[r], skipCols)|
    {
      if r < k {
        assert st.candidates != [];
      }
    }
  }

  /** Before the first data row every column is empty. */
  lemma {:induction false} ColumnEmpty(rows: seq<seq<string>>, mentions: seq<string>, skipCols: nat, k: nat, i: nat)
    requires k <= |rows| && |mentions| > 0 && DataRows(rows, skipCols, k) == 0
    ensures Column(rows, mentions, skipCols, k, i) == []
  {
    if k > 1 {
      ColumnEmpty(rows, mentions, skipCols, k - 1, i);
    }
  }

  /** The scan of the first `k` rows, when it succeeds, has gathered what
      `ScanInv` says. */
  lemma {:induction false} ScanGathers(rows: seq<seq<string>>, mentions: seq<string>, skipCols: nat, k: nat)
    requires 1 <= k <= |rows| && |mentions| > 0 && RowsFit(rows)
    requires ScanRows(rows, mentions, skipCols, k).Ok?
    ensures ScanInv(rows, mentions, skipCols, k, ScanRows(rows, mentions, skipCols, k).value)
    decreases k, 1
  {
    if k == 1 {
      ScanInvHeader(rows, mentions, skipCols);
    } else {
      ScanGathersNext(rows, mentions, skipCols, k - 1, k);
    }
  }

  /** The induction step of `ScanGathers`, from `j` rows to `k = j + 1`. */
  lemma {:induction false} ScanGathersNext(rows: seq<seq<string>>, mentions: seq<string>, skipCols: nat, j: nat, k: nat)
    requires 1 <= j && k == j + 1 && k <= |rows| && |mentions| > 0 && RowsFit(rows)
    requires ScanRows(rows, mentions, skipCols, k).Ok?
    ensures ScanInv(rows, mentions, skipCols, k, ScanRows(rows, mentions, skipCols, k).value)
    decreases k, 0
  {
    ScanOkBefore(rows, mentions, skipCols, j, k);
    ScanGathers(rows, mentions, skipCols, j);
    ScanInvNext(rows, mentions, skipCols, j, k);
  }

  /** A scan that succeeds succeeded one row earlier. */
  lemma ScanOkBefore(rows: seq<seq<string>>, mentions: seq<string>, skipCols: nat, j: nat, k: nat)
    requires 1 <= j && k == j + 1 && k <= |rows| && |mentions| > 0 && RowsFit(rows)
    requires ScanRows(rows, mentions, skipCols, k).Ok?
    ensures ScanRows(rows, mentions, skipCols, j).Ok?
  {
  }

  /** The invariant after `j` rows carries over to `k = j + 1` rows. */
  lemma ScanInvNext(rows: seq<seq<string>>, mentions: seq<string>, skipCols: nat, j: nat, k: nat)
    requires 1 <= j && k == j + 1 && k <= |rows| && |mentions| > 0 && RowsFit(rows)
    requires ScanRows(rows, mentions, skipCols, j).Ok? && ScanRows(rows, mentions, skipCols, k).Ok?
    requires ScanInv(rows, mentions, skipCols, j, ScanRows(rows, mentions, skipCols, j).value)
    ensures ScanInv(rows, mentions, skipCols, k, ScanRows(rows, mentions, skipCols, k).value)
  {
    ScanStep(rows, mentions, skipCols, j);
    var st := ScanRows(rows, mentions, skipCols, j).value;
    var next := ScanRow(st, Cells(rows[j], skipCols), mentions, j);
    ScanInvRow(rows, mentions, skipCols, j, st);
    assert ScanRows(rows, mentions, skipCols, k) == next;
  }

  /** One row, empty or accepted, keeps the invariant. */
  lemma ScanInvRow(rows: seq<seq<string>>, mentions: seq<string>, skipCols: nat, k: nat, st: Scan)
    requires 1 <= k < |rows| && |mentions| > 0 && RowsFit(rows)
    requires ScanInv(rows, mentions, skipCols, k, st)
    requires ScanRow(st, Cells(rows[k], skipCols), mentions, k).Ok?
    ensures ScanInv(rows, mentions, skipCols, k + 1, ScanRow(st, Cells(rows[k], skipCols), mentions, k).value)
  {
    if Cells(rows[k], skipCols) == [] {
      ScanInvEmptyRow(rows, mentions, skipCols, k, st);
    } else {
      ScanInvDataRow(rows, mentions, skipCols, k, st);
    }
  }

  // ---------------------------------------------------------------------
  // Names.

  /** Once the candidates are named, later rows do not rename them. */
  lemma NamesStable(rows: seq<seq<string>>, skipCols: nat, k: nat, n: nat)
    requires k <= n <= |rows| && RowsFit(rows)
    requires Names(rows, skipCols, k) != []
    ensures Names(rows, skipCols, n) == Names(rows, skipCols, k)
  {
  }

  /** Every data row has its cells on the scale and a cell for every
      candidate. */
  predicate RowsAccepted(rows: seq<seq<string>>, mentions: seq<string>, skipCols: nat, k: nat)
    requires k <= |rows| && RowsFit(rows)
  {
    forall r :: 1 <= r < k && Cells(rows[r], skipCols) != [] ==>
      AllCellsKnown(Cells(rows[r], skipCols), mentions) && |CandidateList(rows, skipCols)| <= |Cells(rows[r], skipCols)|
  }

  /** What the scan of all rows holds once it succeeds. */
  lemma ScanWhole(rows: seq<seq<string>>, mentions: seq<string>, skipCols: nat)
    requires 1 <= |rows| && |mentions| > 0 && RowsFit(rows)
    requires ScanRows(rows, mentions, skipCols, |rows|).Ok?
    ensures ScanRows(rows, mentions, skipCols, |rows|).value.candidates == CandidateList(rows, skipCols)
    ensures RowsAccepted(rows, mentions, skipCols, |rows|)
    ensures ScanInv(rows, mentions, skipCols, |rows|, ScanRows(rows, mentions, skipCols, |rows|).value)
  {
    ScanGathers(rows, mentions, skipCols, |rows|);
  }

  /** The scan goes through every row when every data row is accepted. */
  lemma {:induction false} ScanSucceeds(rows: seq<seq<string>>, mentions: seq<string>, skipCols: nat, k: nat)
    requires k <= |rows| && |mentions| > 0 && RowsFit(rows)
    requires RowsAccepted(rows, mentions, skipCols, k)
    ensures ScanRows(rows, mentions, skipCols, k).Ok?
  {
    if k > 1 {
      assert RowsAccepted(rows, mentions, skipCols, k - 1);
      ScanSucceeds(rows, mentions, skipCols, k - 1);
      var cells := Cells(rows[k - 1], skipCols);
      ScanStep(rows, mentions, skipCols, k - 1);
      if cells != [] {
        var st := ScanRows(rows, mentions, skipCols, k - 1).value;
        ScanGathers(rows, mentions, skipCols, k - 1);
        NamesAtFirstData(rows, mentions, skipCols, k - 1, st);
        NamesStable(rows, skipCols, k, |rows|);
      }
    }
  }

  /** Why a deliberation stopped at row `f.row`: a data row whose
      predecessors were all accepted, with a cell outside the scale or,
      all its cells being known, fewer cells than candidates. */
  predicate Explains(rows: seq<seq<string>>, mentions: seq<string>, skipCols: nat, f: Failure)
    requires RowsFit(rows)
  {
    && !f.MissingJudgments?
    && 1 <= f.row < |rows| && Cells(rows[f.row], skipCols) != []
    && RowsAccepted(rows, mentions, skipCols, f.row)
    && (f.UnknownMention? ==> f.mention in Cells(rows[f.row], skipCols) && !Known(f.mention, mentions))
    && (f.RowTooShort? ==> (AllCellsKnown(Cells(rows[f.row], skipCols), mentions) &&
                            |Cells(rows[f.row], skipCols)| < |CandidateList(rows, skipCols)|))
  }

  /** The data row that makes the scan fail explains the failure. */
  lemma ScanFailureAt(rows: seq<seq<string>>, mentions: seq<string>, skipCols: nat, k: nat, st: Scan)
    requires 1 <= k < |rows| && |mentions| > 0 && RowsFit(rows)
    requires ScanInv(rows, mentions, skipCols, k, st)
    requires ScanRow(st, Cells(rows[k], skipCols), mentions, k).Err?
    ensures ScanRow(st, Cells(rows[k], skipCols), mentions, k).failure.row == k
    ensures Explains(rows, mentions, skipCols, ScanRow(st, Cells(rows[k], skipCols), mentions, k).failure)
  {
    var cells := Cells(rows[k], skipCols);
    NamesAtFirstData(rows, mentions, skipCols, k, st);
    NamesStable(rows, skipCols, k + 1, |rows|);
    RowsAcceptedSoFar(rows, mentions, skipCols, k, st);
    var f := ScanRow(st, cells, mentions, k).failure;
    if Normalize(cells, mentions, k).Err? {
      assert f == Normalize(cells, mentions, k).failure;
    } else {
      assert f == RowTooShort(k);
      assert |cells| < |CandidateList(rows, skipCols)|;
    }
  }

  /** The scan that fails at row `k` fails with a failure explained by
      row `k`. */
  lemma ScanFailureStep(rows: seq<seq<string>>, mentions: seq<string>, skipCols: nat, k: nat)
    requires 1 <= k < |rows| && |mentions| > 0 && RowsFit(rows)
    requires ScanRows(rows, mentions, skipCols, k).Ok? && ScanRows(rows, mentions, skipCols, k + 1).Err?
    ensures ScanRows(rows, mentions, skipCols, k + 1).failure.row == k
    ensures Explains(rows, mentions, skipCols, ScanRows(rows, mentions, skipCols, k + 1).failure)
  {
    var st := ScanRows(rows, mentions, skipCols, k).value;
    ScanStep(rows, mentions, skipCols, k);
    ScanGathers(rows, mentions, skipCols, k);
    ScanFailureAt(rows, mentions, skipCols, k, st);
  }

  /** Reading the header never fails. */
  lemma ScanHeaderOk(rows: seq<seq<string>>, mentions: seq<string>, skipCols: nat)
    requires |mentions| > 0 && RowsFit(rows)
    ensures ScanRows(rows, mentions, skipCols, 0).Ok?
    ensures |rows| > 0 ==> ScanRows(rows, mentions, skipCols, 1).Ok?
  {
  }

  /** Where the scan stops: at an unknown cell or at a row too short for
      the candidates, every data row before it being accepted. */
  lemma {:induction false} ScanFailure(rows: seq<seq<string>>, mentions: seq<string>, skipCols: nat, k: nat)
    requires k <= |rows| && |mentions| > 0 && RowsFit(rows)
    requires ScanRows(rows, mentions, skipCols, k).Err?
    ensures Explains(rows, mentions, skipCols, ScanRows(rows, mentions, skipCols, k).failure)
    ensures ScanRows(rows, mentions, skipCols, k).failure.row < k
  {
    ScanHeaderOk(rows, mentions, skipCols);
    assert 2 <= k;
    var prev := ScanRows(rows, mentions, skipCols, k - 1);
    if prev.Err? {
      ScanFailure(rows, mentions, skipCols, k - 1);
      assert ScanRows(rows, mentions, skipCols, k) == prev;
    } else {
      ScanFailureStep(rows, mentions, skipCols, k - 1);
    }
  }

  /** The data rows the scan has gone through are accepted. */
  lemma RowsAcceptedSoFar(rows: seq<seq<string>>, mentions: seq<string>, skipCols: nat, k: nat, st: Scan)
    requires 1 <= k <= |rows| && |mentions| > 0 && RowsFit(rows)
    requires ScanInv(rows, mentions, skipCols, k, st)
    ensures RowsAccepted(rows, mentions, skipCols, k)
  {
    if st.candidates != [] {
      NamesStable(rows, skipCols, k, |rows|);
    } else {
      NoDataRows(rows, skipCols, k);
    }
  }

  // ---------------------------------------------------------------------
  // Tallies.

  /** The tallying succeeds exactly when every candidate has judgments. */
  lemma {:induction false} TalliesOk(cands: seq<string>, js: map<string, seq<string>>, mentions: seq<string>, k: nat)
    requires k <= |cands| && |mentions| > 0 && AllKnown(js, mentions)
    ensures TalliesUpTo(cands, js, mentions, k).Ok? <==> forall i :: 0 <= i < k ==> cands[i] in js
  {
    if k > 0 {
      TalliesOk(cands, js, mentions, k - 1);
    }
  }

  /** With distinct names, each candidate's tally counts its own judgments
      from zero. */
  lemma {:induction false} TalliesDistinct(cands: seq<string>, js: map<string, seq<string>>, mentions: seq<string>,
                                           k: nat, i: nat)
    requires i < k <= |cands| && |mentions| > 0 && AllKnown(js, mentions) && Distinct(cands)
    requires TalliesUpTo(cands, js, mentions, k).Ok?
    ensures cands[i] in js && cands[i] in TalliesUpTo(cands, js, mentions, k).value
    ensures TalliesUpTo(cands, js, mentions, k).value[cands[i]] == AddAll(Zeros(|mentions|), js[cands[i]], mentions)
  {
    var prev := TalliesUpTo(cands, js, mentions, k - 1);
    assert prev.Ok?;
    if i < k - 1 {
      TalliesDistinct(cands, js, mentions, k - 1, i);
    } else {
      assert cands[k - 1] !in cands[..k - 1];
    }
  }

  /** Counting a list of judgments adds, at each position, the number of
      times that position's mention occurs in the list. */
  lemma {:induction false} AddAllCount(t: Tally, list: seq<string>, mentions: seq<string>, p: nat)
    requires Distinct(mentions) && |t| == |mentions| && p < |t|
    requires forall m :: m in list ==> m in mentions
    ensures AddAll(t, list, mentions)[p] == t[p] + multiset(list)[mentions[p]]
  {
    if list != [] {
      var init, last := list[..|list| - 1], list[|list| - 1];
      assert list == init + [last];
      AddAllCount(t, init, mentions, p);
      var q := IndexOf(mentions, last);
      if q != p {
        assert mentions[q] != mentions[p];
      }
    }
  }

  /** One judgment per data row in every column that all data rows reach. */
  lemma {:induction false} ColumnLength(rows: seq<seq<string>>, mentions: seq<string>, skipCols: nat, k: nat, i: nat)
    requires k <= |rows| && |mentions| > 0
    requires forall r :: 1 <= r < k && Cells(rows[r], skipCols) != [] ==> i < |Cells(rows[r], skipCols)|
    ensures |Column(rows, mentions, skipCols, k, i)| == DataRows(rows, skipCols, k)
  {
    if k > 1 {
      ColumnLength(rows, mentions, skipCols, k - 1, i);
    }
  }

  // ---------------------------------------------------------------------
  // The deliberation.

  /** The parts a successful deliberation is made of: the scan of every
      row, the tallies of the candidates it names and their ranking. */
  lemma DeliberationParts(rows: seq<seq<string>>, mentions: seq<string>, skipCols: nat)
    requires Distinct(mentions) && |mentions| > 0 && RowsFit(rows)
    requires Deliberation(rows, mentions, skipCols).Ok?
    ensures ScanRows(rows, mentions, skipCols, |rows|).Ok?
    ensures AllKnown(ScanRows(rows, mentions, skipCols, |rows|).value.judgments, mentions)
    ensures ScanRows(rows, mentions, skipCols, |rows|).value.candidates == CandidateList(rows, skipCols)
    ensures TalliesUpTo(CandidateList(rows, skipCols), ScanRows(rows, mentions, skipCols, |rows|).value.judgments,
                        mentions, |CandidateList(rows, skipCols)|)
            == Ok(Deliberation(rows, mentions, skipCols).value.1)
    ensures Tallied(Deliberation(rows, mentions, skipCols).value.1, CandidateList(rows, skipCols), mentions)
    ensures Deliberation(rows, mentions, skipCols).value.0
            == SortCandidates(Deliberation(rows, mentions, skipCols).value.1, CandidateList(rows, skipCols), mentions)
  {
    ScanKnown(rows, mentions, skipCols, |rows|);
    if |rows| > 0 {
      ScanWhole(rows, mentions, skipCols);
    }
    var cands := CandidateList(rows, skipCols);
    assert cands[..|cands|] == cands;
  }

  /** A deliberation ranks every candidate the rows name, each as often as
      it is named, and tallies exactly those names. */
  lemma DeliberationRanksCandidates(rows: seq<seq<string>>, mentions: seq<string>, skipCols: nat)
    requires Distinct(mentions) && |mentions| > 0 && RowsFit(rows)
    requires Deliberation(rows, mentions, skipCols).Ok?
    ensures multiset(Deliberation(rows, mentions, skipCols).value.0) == multiset(CandidateList(rows, skipCols))
    ensures forall c :: c in Deliberation(rows, mentions, skipCols).value.1 <==> c in CandidateList(rows, skipCols)
  {
    DeliberationParts(rows, mentions, skipCols);
    var cands := CandidateList(rows, skipCols);
    assert cands[..|cands|] == cands;
  }

  /** With distinct names, the judgments collected for a candidate are its
      column. */
  lemma ScanColumn(rows: seq<seq<string>>, mentions: seq<string>, skipCols: nat, i: nat)
    requires 1 <= |rows| && |mentions| > 0 && RowsFit(rows)
    requires ScanRows(rows, mentions, skipCols, |rows|).Ok?
    requires Distinct(CandidateList(rows, skipCols)) && i < |CandidateList(rows, skipCols)|
    ensures Get(ScanRows(rows, mentions, skipCols, |rows|).value.judgments, CandidateList(rows, skipCols)[i])
            == Column(rows, mentions, skipCols, |rows|, i)
  {
    ScanGathers(rows, mentions, skipCols, |rows|);
  }

  /** With distinct names, a candidate's tally counts the judgments of its
      column. */
  lemma DeliberationColumn(rows: seq<seq<string>>, mentions: seq<string>, skipCols: nat, i: nat)
    requires Distinct(mentions) && |mentions| > 0 && RowsFit(rows)
    requires Deliberation(rows, mentions, skipCols).Ok?
    requires Distinct(CandidateList(rows, skipCols))
    requires i < |CandidateList(rows, skipCols)|
    ensures CandidateList(rows, skipCols)[i] in Deliberation(rows, mentions, skipCols).value.1
    ensures forall m :: m in Column(rows, mentions, skipCols, |rows|, i) ==> m in mentions
    ensures Deliberation(rows, mentions, skipCols).value.1[CandidateList(rows, skipCols)[i]]
            == AddAll(Zeros(|mentions|), Column(rows, mentions, skipCols, |rows|, i), mentions)
  {
    DeliberationParts(rows, mentions, skipCols);
    var cands := CandidateList(rows, skipCols);
    var js := ScanRows(rows, mentions, skipCols, |rows|).value.judgments;
    ScanColumn(rows, mentions, skipCols, i);
    TalliesDistinct(cands, js, mentions, |cands|, i);
  }

  /** With distinct names, the count of a mention in a candidate's tally is
      the number of data rows whose cell in the candidate's column holds
      that mention, a blank cell counting as the lowest mention. */
  lemma DeliberationCount(rows: seq<seq<string>>, mentions: seq<string>, skipCols: nat, i: nat, p: nat)
    requires Distinct(mentions) && |mentions| > 0 && RowsFit(rows)
    requires Deliberation(rows, mentions, skipCols).Ok?
    requires Distinct(CandidateList(rows, skipCols))
    requires i < |CandidateList(rows, skipCols)| && p < |mentions|
    ensures CandidateList(rows, skipCols)[i] in Deliberation(rows, mentions, skipCols).value.1
    ensures Deliberation(rows, mentions, skipCols).value.1[CandidateList(rows, skipCols)[i]][p]
            == multiset(Column(rows, mentions, skipCols, |rows|, i))[mentions[p]]
  {
    DeliberationColumn(rows, mentions, skipCols, i);
    AddAllCount(Zeros(|mentions|), Column(rows, mentions, skipCols, |rows|, i), mentions, p);
  }

  /** With distinct names, every candidate's tally holds one judgment per
      data row. */
  lemma DeliberationTotal(rows: seq<seq<string>>, mentions: seq<string>, skipCols: nat, i: nat)
    requires Distinct(mentions) && |mentions| > 0 && RowsFit(rows)
    requires Deliberation(rows, mentions, skipCols).Ok?
    requires Distinct(CandidateList(rows, skipCols))
    requires i < |CandidateList(rows, skipCols)|
    ensures CandidateList(rows, skipCols)[i] in Deliberation(rows, mentions, skipCols).value.1
    ensures Total(Deliberation(rows, mentions, skipCols).value.1[CandidateList(rows, skipCols)[i]])
            == DataRows(rows, skipCols, |rows|)
  {
    DeliberationColumn(rows, mentions, skipCols, i);
    DeliberationSucceeds(rows, mentions, skipCols);
    ColumnLength(rows, mentions, skipCols, |rows|, i);
  }

  /** With distinct names, the ranking lists no candidate after one it
      beats. */
  lemma DeliberationRanked(rows: seq<seq<string>>, mentions: seq<string>, skipCols: nat)
    requires Distinct(mentions) && |mentions| > 0 && RowsFit(rows)
    requires Deliberation(rows, mentions, skipCols).Ok?
    requires Distinct(CandidateList(rows, skipCols))
    ensures Ranked(Deliberation(rows, mentions, skipCols).value.1, Deliberation(rows, mentions, skipCols).value.0,
                   mentions)
  {
    DeliberationParts(rows, mentions, skipCols);
    var cands := CandidateList(rows, skipCols);
    var tallies := Deliberation(rows, mentions, skipCols).value.1;
    forall i | 0 <= i < |cands|
      ensures Total(tallies[cands[i]]) == DataRows(rows, skipCols, |rows|)
    {
      DeliberationTotal(rows, mentions, skipCols, i);
    }
    SortRanked(tallies, cands, mentions, DataRows(rows, skipCols, |rows|));
  }

  /** Candidates with identical tallies appear in the ranking in the order
      the rows name them. */
  lemma DeliberationStable(rows: seq<seq<string>>, mentions: seq<string>, skipCols: nat, t: Tally)
    requires Distinct(mentions) && |mentions| > 0 && RowsFit(rows)
    requires Deliberation(rows, mentions, skipCols).Ok?
    ensures Tallied(Deliberation(rows, mentions, skipCols).value.1, CandidateList(rows, skipCols), mentions)
    ensures Tied(Deliberation(rows, mentions, skipCols).value.1, Deliberation(rows, mentions, skipCols).value.0, t)
            == Tied(Deliberation(rows, mentions, skipCols).value.1, CandidateList(rows, skipCols), t)
  {
    DeliberationParts(rows, mentions, skipCols);
    SortStable(Deliberation(rows, mentions, skipCols).value.1, CandidateList(rows, skipCols), mentions, t);
  }

  /** A deliberation succeeds exactly when every data row is accepted and
      the rows do not name candidates without giving a single data row. */
  lemma DeliberationSucceeds(rows: seq<seq<string>>, mentions: seq<string>, skipCols: nat)
    requires Distinct(mentions) && |mentions| > 0 && RowsFit(rows)
    ensures Deliberation(rows, mentions, skipCols).Ok? <==>
              RowsAccepted(rows, mentions, skipCols, |rows|) &&
              (DataRows(rows, skipCols, |rows|) > 0 || CandidateList(rows, skipCols) == [])
  {
    ScanKnown(rows, mentions, skipCols, |rows|);
    if |rows| == 0 {
      return;
    }
    var cands := CandidateList(rows, skipCols);
    if Deliberation(rows, mentions, skipCols).Ok? {
      DeliberationParts(rows, mentions, skipCols);
      ScanWhole(rows, mentions, skipCols);
      var st := ScanRows(rows, mentions, skipCols, |rows|).value;
      TalliesOk(cands, st.judgments, mentions, |cands|);
      if cands != [] {
        assert cands[0] in st.judgments;
      }
    } else if RowsAccepted(rows, mentions, skipCols, |rows|) {
      ScanSucceeds(rows, mentions, skipCols, |rows|);
      ScanWhole(rows, mentions, skipCols);
      var st := ScanRows(rows, mentions, skipCols, |rows|).value;
      TalliesOk(cands, st.judgments, mentions, |cands|);
    }
  }

  /** Why a deliberation fails: a data row it cannot accept, the first
      one, or candidates named by a header with no data row under it, in
      which case the first name is the one reported. */
  lemma DeliberationFails(rows: seq<seq<string>>, mentions: seq<string>, skipCols: nat)
    requires Distinct(mentions) && |mentions| > 0 && RowsFit(rows)
    requires Deliberation(rows, mentions, skipCols).Err?
    ensures var f := Deliberation(rows, mentions, skipCols).failure;
            !f.MissingJudgments? ==> Explains(rows, mentions, skipCols, f)
    ensures var f := Deliberation(rows, mentions, skipCols).failure;
            f.MissingJudgments? ==> (DataRows(rows, skipCols, |rows|) == 0 && CandidateList(rows, skipCols) != [] &&
                                     f.candidate == CandidateList(rows, skipCols)[0])
  {
    ScanKnown(rows, mentions, skipCols, |rows|);
    var scan := ScanRows(rows, mentions, skipCols, |rows|);
    if scan.Err? {
      ScanFailure(rows, mentions, skipCols, |rows|);
    } else {
      ScanWhole(rows, mentions, skipCols);
      var cands := CandidateList(rows, skipCols);
      var st := scan.value;
      TalliesOk(cands, st.judgments, mentions, |cands|);
      assert cands != [];
      TallyStep(cands, st.judgments, mentions, 0, map[]);
    }
  }
}
