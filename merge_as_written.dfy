/**
 * The reconciliation loop of data_utils.py exactly as written, reading each
 * joined row by column label. The persisted side always carries every
 * expected column, so every source column the import also has appears
 * twice in the join and is renamed `<name>_old` / `<name>_new`. The
 * new-job branch then asks for the plain `<name>` and gets nothing, and the
 * continuing branch asks for `<name>_new` / `<name>_old` even for a column
 * the import lacks, which exists only under its plain name. The lemmas
 * here exhibit both losses and show that the missing-job branch, which
 * checks for the suffixed label first, agrees with the model.
 */
module MergeAsWritten {
  import opened Wrappers
  import opened PyStrings
  import opened Cells
  import opened Config
  import opened Reconciliation

  /** A source column the import has, which therefore takes part in the join from both sides. */
  predicate FromImport(cols: seq<string>, j: nat)
    requires j < ColumnCount
  {
    j != KeyIndex && !IsUserIndex(j) && ExpectedColumns[j] in cols
  }

  /** The label of the persisted side's column `j` in the joined frame. */
  function OldLabel(cols: seq<string>, j: nat): string
    requires j < ColumnCount
  {
    if FromImport(cols, j) then ExpectedColumns[j] + "_old" else ExpectedColumns[j]
  }

  /** The label of the import side's column `j` in the joined frame. */
  function NewLabel(j: nat): string
    requires j < ColumnCount
  {
    ExpectedColumns[j] + "_new"
  }

  /**
   * The first `n` expected columns of one joined row, as label-to-value
   * entries; the side a key is absent from contributes nulls.
   */
  function JoinedRow(key: string, cols: seq<string>, row: Option<seq<Cell>>, prior: Option<Row>, n: nat): map<string, Cell>
    requires n <= ColumnCount
    requires row.Some? ==> |row.value| == |cols|
    requires prior.Some? ==> |prior.value| == ColumnCount
  {
    if n == 0 then map[]
    else
      var j := n - 1;
      var m := JoinedRow(key, cols, row, prior, j);
      if j == KeyIndex then m[KeyColumn := Text(key)]
      else
        var persisted := if prior.Some? then prior.value[j] else Null;
        var m1 := m[OldLabel(cols, j) := persisted];
        if FromImport(cols, j) then
          m1[NewLabel(j) := if row.Some? then BatchField(cols, row.value, j).GetOr(Null) else Null]
        else m1
  }

  /** `row.get(label)`: the value under the label, or nothing when the label does not exist. */
  function Get(m: map<string, Cell>, name: string): Cell {
    if name in m then m[name] else Null
  }

  function NewJobCellAsWritten(key: string, m: map<string, Cell>, j: nat): Cell
    requires j < ColumnCount
  {
    if j == KeyIndex then Text(key)
    else if j == StatusIndex then Text("New")
    else if j == NotesIndex then Text("")
    else Get(m, ExpectedColumns[j])
  }

  function ContinuingCellAsWritten(key: string, m: map<string, Cell>, j: nat): Cell
    requires j < ColumnCount
  {
    var col := ExpectedColumns[j];
    if j == KeyIndex then Text(key)
    else if IsUserIndex(j) then
      var v := Get(m, col);
      if !v.Null? then v else if j == NotesIndex then Text("") else Text("New")
    else
      var newValue := Get(m, col + "_new");
      var oldValue := Get(m, col + "_old");
      if !newValue.Null? then newValue else oldValue
  }

  /** The persisted value as the missing-job branch reads it: the suffixed label when there is one. */
  function PersistedValue(m: map<string, Cell>, j: nat): Cell
    requires j < ColumnCount
  {
    var col := ExpectedColumns[j];
    if col + "_old" in m then Get(m, col + "_old") else Get(m, col)
  }

  function MissingCellAsWritten(key: string, m: map<string, Cell>, stamp: string, j: nat): Cell
    requires j < ColumnCount
  {
    if j == KeyIndex then Text(key)
    else if j == StatusIndex then Text(ReviewMissingStatus)
    else if j == NotesIndex then
      Text(Strip(MissingAlert(PersistedValue(m, StatusIndex), stamp) + NotesSeparator
                 + NotesText(PersistedValue(m, NotesIndex))))
    else PersistedValue(m, j)
  }

  function NewJobRowAsWritten(key: string, cols: seq<string>, row: seq<Cell>): (r: Row)
    requires |row| == |cols|
    ensures |r| == ColumnCount
  {
    var m := JoinedRow(key, cols, Some(row), None, ColumnCount);
    seq(ColumnCount, j requires 0 <= j < ColumnCount => NewJobCellAsWritten(key, m, j))
  }

  function ContinuingRowAsWritten(key: string, cols: seq<string>, row: seq<Cell>, prior: Row): (r: Row)
    requires |row| == |cols| && |prior| == ColumnCount
    ensures |r| == ColumnCount
  {
    var m := JoinedRow(key, cols, Some(row), Some(prior), ColumnCount);
    seq(ColumnCount, j requires 0 <= j < ColumnCount => ContinuingCellAsWritten(key, m, j))
  }

  function MissingRowAsWritten(key: string, cols: seq<string>, prior: Row, stamp: string): (r: Row)
    requires |prior| == ColumnCount
    ensures |r| == ColumnCount
  {
    var m := JoinedRow(key, cols, None, Some(prior), ColumnCount);
    seq(ColumnCount, j requires 0 <= j < ColumnCount => MissingCellAsWritten(key, m, stamp, j))
  }

  // ---------------------------------------------------------------------
  // Labels of the joined row

  lemma NoUnderscoreInColumnNames()
    ensures forall j :: 0 <= j < ColumnCount ==> '_' !in ExpectedColumns[j]
  {
  }

  lemma SuffixedDiffers(a: string, b: string, suffix: string)
    requires '_' !in a && suffix != [] && suffix[0] == '_'
    ensures a != b + suffix
  {
    assert (b + suffix)[|b|] == '_';
    assert '_' in b + suffix;
  }

  lemma SameSuffixInjective(a: string, b: string, suffix: string)
    requires a != b
    ensures a + suffix != b + suffix
  {
    if |a| == |b| {
      assert (a + suffix)[..|a|] == a;
      assert (b + suffix)[..|b|] == b;
    }
  }

  lemma OldNewDiffer(a: string, b: string)
    ensures a + "_old" != b + "_new"
  {
    assert (a + "_old")[|a + "_old"| - 1] == 'd';
    assert (b + "_new")[|b + "_new"| - 1] == 'w';
  }

  /** The labels column `i` contributes to a joined row. */
  function LabelsAt(cols: seq<string>, i: nat): set<string>
    requires i < ColumnCount
  {
    if i == KeyIndex then {KeyColumn}
    else if FromImport(cols, i) then {OldLabel(cols, i), NewLabel(i)}
    else {OldLabel(cols, i)}
  }

  /** Another column's labels never include column `j`'s name, plain or suffixed. */
  lemma LabelsApart(cols: seq<string>, i: nat, j: nat)
    requires i < ColumnCount && 0 < j < ColumnCount && i != j
    ensures var c := ExpectedColumns[j];
      c !in LabelsAt(cols, i) && c + "_old" !in LabelsAt(cols, i) && c + "_new" !in LabelsAt(cols, i)
  {
    NoUnderscoreInColumnNames();
    ColumnNames();
    var c := ExpectedColumns[j];
    var e := ExpectedColumns[i];
    assert c != e;
    SuffixedDiffers(c, e, "_old");
    SuffixedDiffers(c, e, "_new");
    SuffixedDiffers(e, c, "_old");
    SuffixedDiffers(e, c, "_new");
    SameSuffixInjective(c, e, "_old");
    SameSuffixInjective(c, e, "_new");
    OldNewDiffer(c, e);
    OldNewDiffer(e, c);
  }

  /** A column's own labels: its plain name only when it is not suffixed, and conversely. */
  lemma LabelsOwn(cols: seq<string>, j: nat)
    requires 0 < j < ColumnCount
    ensures var c := ExpectedColumns[j];
      && (FromImport(cols, j) ==> c !in LabelsAt(cols, j))
      && (!FromImport(cols, j) ==> c + "_old" !in LabelsAt(cols, j) && c + "_new" !in LabelsAt(cols, j))
  {
    NoUnderscoreInColumnNames();
    var c := ExpectedColumns[j];
    SuffixedDiffers(c, c, "_old");
    SuffixedDiffers(c, c, "_new");
  }

  /** Adding column `n - 1` touches only that column's labels. */
  lemma JoinedRowStep(key: string, cols: seq<string>, row: Option<seq<Cell>>, prior: Option<Row>, n: nat, x: string)
    requires 0 < n <= ColumnCount
    requires row.Some? ==> |row.value| == |cols|
    requires prior.Some? ==> |prior.value| == ColumnCount
    requires x !in LabelsAt(cols, n - 1)
    ensures var m := JoinedRow(key, cols, row, prior, n - 1);
      var m' := JoinedRow(key, cols, row, prior, n);
      (x in m' <==> x in m) && (x in m ==> m'[x] == m[x])
  {
  }

  /** Column `j`'s persisted-side label is no other column's label. */
  lemma OldLabelApart(cols: seq<string>, i: nat, j: nat)
    requires i < ColumnCount && 0 < j < ColumnCount && i != j
    ensures OldLabel(cols, j) !in LabelsAt(cols, i)
  {
    LabelsApart(cols, i, j);
  }

  /** The persisted side's value of column `j` sits under its label once column `j` is added. */
  lemma {:induction false} JoinedOldEntry(key: string, cols: seq<string>, row: Option<seq<Cell>>, prior: Option<Row>, n: nat, j: nat)
    requires j < n <= ColumnCount && 0 < j
    requires row.Some? ==> |row.value| == |cols|
    requires prior.Some? ==> |prior.value| == ColumnCount
    ensures var m := JoinedRow(key, cols, row, prior, n);
      OldLabel(cols, j) in m && m[OldLabel(cols, j)] == (if prior.Some? then prior.value[j] else Null)
  {
    if n - 1 != j {
      JoinedOldEntry(key, cols, row, prior, n - 1, j);
      OldLabelApart(cols, n - 1, j);
      JoinedRowStep(key, cols, row, prior, n, OldLabel(cols, j));
    } else {
      JoinedOldEntryAdded(key, cols, row, prior, j);
    }
  }

  /** Adding column `j` puts the persisted side's value under its label. */
  lemma JoinedOldEntryAdded(key: string, cols: seq<string>, row: Option<seq<Cell>>, prior: Option<Row>, j: nat)
    requires 0 < j < ColumnCount
    requires row.Some? ==> |row.value| == |cols|
    requires prior.Some? ==> |prior.value| == ColumnCount
    ensures var m := JoinedRow(key, cols, row, prior, j + 1);
      OldLabel(cols, j) in m && m[OldLabel(cols, j)] == (if prior.Some? then prior.value[j] else Null)
  {
    if FromImport(cols, j) {
      var c := ExpectedColumns[j];
      OldNewDiffer(c, c);
    }
  }

  /** The import side's value of column `j` sits under `<name>_new` once column `j` is added. */
  lemma {:induction false} JoinedNewEntry(key: string, cols: seq<string>, row: Option<seq<Cell>>, prior: Option<Row>, n: nat, j: nat)
    requires j < n <= ColumnCount && 0 < j && FromImport(cols, j)
    requires row.Some? ==> |row.value| == |cols|
    requires prior.Some? ==> |prior.value| == ColumnCount
    ensures var m := JoinedRow(key, cols, row, prior, n);
      NewLabel(j) in m && m[NewLabel(j)] == (if row.Some? then BatchField(cols, row.value, j).GetOr(Null) else Null)
  {
    if n - 1 != j {
      JoinedNewEntry(key, cols, row, prior, n - 1, j);
      LabelsApart(cols, n - 1, j);
      JoinedRowStep(key, cols, row, prior, n, NewLabel(j));
    }
  }

  /** A suffixed column's plain name is no column's label. */
  lemma PlainNotLabel(cols: seq<string>, i: nat, j: nat)
    requires i < ColumnCount && 0 < j < ColumnCount && FromImport(cols, j)
    ensures ExpectedColumns[j] !in LabelsAt(cols, i)
  {
    if i != j {
      LabelsApart(cols, i, j);
    } else {
      LabelsOwn(cols, j);
    }
  }

  /** A suffixed column's plain name is not a label of the joined row. */
  lemma {:induction false} JoinedPlainAbsent(key: string, cols: seq<string>, row: Option<seq<Cell>>, prior: Option<Row>, n: nat, j: nat)
    requires n <= ColumnCount && 0 < j < ColumnCount && FromImport(cols, j)
    requires row.Some? ==> |row.value| == |cols|
    requires prior.Some? ==> |prior.value| == ColumnCount
    ensures ExpectedColumns[j] !in JoinedRow(key, cols, row, prior, n)
  {
    if n > 0 {
      JoinedPlainAbsent(key, cols, row, prior, n - 1, j);
      PlainNotLabel(cols, n - 1, j);
      JoinedRowStep(key, cols, row, prior, n, ExpectedColumns[j]);
    }
  }

  /** An unsuffixed column's `<name>_old` and `<name>_new` are not labels of the joined row. */
  lemma {:induction false} JoinedSuffixedAbsent(key: string, cols: seq<string>, row: Option<seq<Cell>>, prior: Option<Row>, n: nat, j: nat)
    requires n <= ColumnCount && 0 < j < ColumnCount && !FromImport(cols, j)
    requires row.Some? ==> |row.value| == |cols|
    requires prior.Some? ==> |prior.value| == ColumnCount
    ensures var m := JoinedRow(key, cols, row, prior, n);
      ExpectedColumns[j] + "_old" !in m && ExpectedColumns[j] + "_new" !in m
  {
    if n > 0 {
      JoinedSuffixedAbsent(key, cols, row, prior, n - 1, j);
      if n - 1 != j {
        LabelsApart(cols, n - 1, j);
      } else {
        LabelsOwn(cols, j);
      }
      JoinedRowStep(key, cols, row, prior, n, ExpectedColumns[j] + "_old");
      JoinedRowStep(key, cols, row, prior, n, ExpectedColumns[j] + "_new");
    }
  }

  // ---------------------------------------------------------------------
  // What the as-written branches compute

  /**
   * As written, a new job loses every source field the import supplies:
   * the plain label it asks for no longer exists after the join.
   */
  lemma NewJobAsWrittenDropsImportedFields(key: string, cols: seq<string>, row: seq<Cell>, j: nat)
    requires |row| == |cols| && j < ColumnCount && FromImport(cols, j)
    ensures NewJobRowAsWritten(key, cols, row)[j] == Null
  {
    JoinedPlainAbsent(key, cols, Some(row), None, ColumnCount, j);
  }

  /**
   * As written, a continuing job loses the persisted value of a source
   * column the import does not have: neither suffixed label exists.
   */
  lemma ContinuingAsWrittenDropsUnimportedFields(key: string, cols: seq<string>, row: seq<Cell>, prior: Row, j: nat)
    requires |row| == |cols| && |prior| == ColumnCount
    requires 0 < j < ColumnCount && !IsUserIndex(j) && ExpectedColumns[j] !in cols
    ensures ContinuingRowAsWritten(key, cols, row, prior)[j] == Null
  {
    JoinedSuffixedAbsent(key, cols, Some(row), Some(prior), ColumnCount, j);
  }

  /** Where the import does have the column, the as-written continuing branch is the model's rule. */
  lemma ContinuingAsWrittenAgreesOnImportedFields(key: string, cols: seq<string>, row: seq<Cell>, prior: Row, j: nat)
    requires |row| == |cols| && |prior| == ColumnCount
    requires j < ColumnCount && (j == KeyIndex || IsUserIndex(j) || ExpectedColumns[j] in cols)
    ensures ContinuingRowAsWritten(key, cols, row, prior)[j] == ContinuingRow(key, cols, row, prior)[j]
  {
    if 0 < j && !IsUserIndex(j) {
      JoinedOldEntry(key, cols, Some(row), Some(prior), ColumnCount, j);
      JoinedNewEntry(key, cols, Some(row), Some(prior), ColumnCount, j);
    } else if IsUserIndex(j) {
      JoinedOldEntry(key, cols, Some(row), Some(prior), ColumnCount, j);
    }
  }

  /** The missing-job branch reads the suffixed label first, and so computes the model's row. */
  lemma MissingAsWrittenAgrees(key: string, cols: seq<string>, prior: Row, stamp: string)
    requires |prior| == ColumnCount
    ensures MissingRowAsWritten(key, cols, prior, stamp) == MissingRow(key, prior, stamp)
  {
    var m := JoinedRow(key, cols, None, Some(prior), ColumnCount);
    forall j | 0 < j < ColumnCount ensures PersistedValue(m, j) == prior[j] {
      JoinedOldEntry(key, cols, None, Some(prior), ColumnCount, j);
      if !FromImport(cols, j) {
        JoinedSuffixedAbsent(key, cols, None, Some(prior), ColumnCount, j);
      }
    }
  }

  // ---------------------------------------------------------------------
  // Concrete inputs that show the two losses

  /** Invoice 7 arrives for the first time with Account "Acme": as written, its Account is lost. */
  lemma NewJobLosesAccount()
    ensures NewJobRowAsWritten("7", [KeyColumn, AccountColumn], [Text("7"), Text("Acme")])[AccountIndex] == Null
    ensures NewJobRow("7", [KeyColumn, AccountColumn], [Text("7"), Text("Acme")])[AccountIndex] == Text("Acme")
  {
    NewJobAsWrittenDropsImportedFields("7", [KeyColumn, AccountColumn], [Text("7"), Text("Acme")], AccountIndex);
  }

  /** Invoice 7 is persisted with Salesperson "Kim"; an import without that column erases it as written. */
  lemma ContinuingJobLosesSalesperson()
    ensures var prior := [Text("7"), Null, Null, Null, Null, Null, Text("Kim"), Null, Text("New"), Text("")];
      && ContinuingRowAsWritten("7", [KeyColumn], [Text("7")], prior)[SalespersonIndex] == Null
      && ContinuingRow("7", [KeyColumn], [Text("7")], prior)[SalespersonIndex] == Text("Kim")
  {
    var prior := [Text("7"), Null, Null, Null, Null, Null, Text("Kim"), Null, Text("New"), Text("")];
    ContinuingAsWrittenDropsUnimportedFields("7", [KeyColumn], [Text("7")], prior, SalespersonIndex);
  }
}
