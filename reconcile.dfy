/**
 * The import reconciliation engine (`process_data` in data_utils.py): a
 * freshly imported batch of job rows is merged with the persisted job rows,
 * keyed by the text of `Invoice #`. Each key is new (batch only), continuing
 * (both) or missing (persisted only), and each disposition has its own rule
 * for every column. `Reconcile` is the specification; `ProcessData` is the
 * row-by-row procedure of the source, proved to compute it.
 */
module Reconciliation {
  import opened Wrappers
  import opened PyStrings
  import opened Cells
  import opened Config

  /** A job row: one cell per entry of ExpectedColumns, in that order. */
  type Row = seq<Cell>

  /** An imported sheet: header names and rows of cells, one cell per header. */
  datatype Frame = Frame(columns: seq<string>, rows: seq<seq<Cell>>)

  predicate WellFormedFrame(f: Frame) {
    forall i :: 0 <= i < |f.rows| ==> |f.rows[i]| == |f.columns|
  }

  /** A row as the persisted store holds it: all columns, dates already converted. */
  predicate IsRecordRow(r: Row) {
    |r| == ColumnCount && IsDateCell(r[OrderDateIndex]) && IsDateCell(r[TurnInDateIndex])
  }

  /** Rows with one cell per expected column. */
  predicate IsTable(rows: seq<Row>) {
    forall i :: 0 <= i < |rows| ==> |rows[i]| == ColumnCount
  }

  /** The key text of each row. */
  function KeysOf(rows: seq<Row>): (keys: seq<string>)
    requires IsTable(rows)
    ensures |keys| == |rows|
  {
    seq(|rows|, i requires 0 <= i < |rows| => PyStr(rows[i][KeyIndex]))
  }

  /** The first row whose key text is `x`. */
  function Lookup(rows: seq<Row>, x: string): (r: Option<Row>)
    requires IsTable(rows)
    ensures r.Some? ==> |r.value| == ColumnCount && r.value in rows
  {
    match IndexOf(KeysOf(rows), x)
    case Some(i) => Some(rows[i])
    case None => None
  }

  predicate IsSnapshot(snapshot: seq<Row>) {
    && IsTable(snapshot)
    && forall i :: 0 <= i < |snapshot| ==> IsRecordRow(snapshot[i])
  }

  // ---------------------------------------------------------------------
  // Column names and key normalisation

  /** `str(col).strip().replace('\n', '').replace('\r', '')` */
  function SanitizeName(c: string): string {
    ReplaceChar(ReplaceChar(Strip(c), '\n', ""), '\r', "")
  }

  /** Header sanitisation: applied to every header unless all are already stripped. */
  function SanitizeColumns(cols: seq<string>): (r: seq<string>)
    ensures |r| == |cols|
  {
    if forall i :: 0 <= i < |cols| ==> cols[i] == Strip(cols[i]) then cols
    else seq(|cols|, i requires 0 <= i < |cols| => SanitizeName(cols[i]))
  }

  /** Position of the first occurrence of `x`, or None when `x` does not occur. */
  function IndexOf(s: seq<string>, x: string): (r: Option<nat>)
    ensures r.None? <==> x !in s
    ensures r.Some? ==> r.value < |s| && s[r.value] == x && x !in s[..r.value]
  {
    if s == [] then None
    else if s[0] == x then Some(0)
    else
      match IndexOf(s[1..], x)
      case None => None
      case Some(i) =>
        assert s[..i + 1] == [s[0]] + s[1..][..i];
        Some(i + 1)
  }

  /** The batch's value for expected column `j`, or None when the batch has no such column. */
  function BatchField(cols: seq<string>, row: seq<Cell>, j: nat): Option<Cell>
    requires |row| == |cols| && j < ColumnCount
  {
    match IndexOf(cols, ExpectedColumns[j])
    case Some(p) => Some(row[p])
    case None => None
  }

  /** The import's date columns hold timestamps or nothing (the loader's `to_datetime`). */
  predicate ImportDatesConverted(batch: Frame)
    requires WellFormedFrame(batch)
  {
    forall b, j :: 0 <= b < |batch.rows| && 0 <= j < ColumnCount && IsDateIndex(j) ==> IsDateCell(ImportedValue(batch, b, j))
  }

  /** Where the import's key column is, once its headers are sanitised. */
  function ImportKeyIndex(batch: Frame): Option<nat> {
    IndexOf(SanitizeColumns(batch.columns), KeyColumn)
  }

  /** The import's value for expected column `j` of its row `b`; null when it has no such column. */
  function ImportedValue(batch: Frame, b: nat, j: nat): Cell
    requires WellFormedFrame(batch) && b < |batch.rows| && j < ColumnCount
  {
    BatchField(SanitizeColumns(batch.columns), batch.rows[b], j).GetOr(Null)
  }

  /** The batch's keys: `astype(str)` of its key column. */
  function BatchKeys(batch: Frame, k: nat): (keys: seq<string>)
    requires WellFormedFrame(batch) && k < |batch.columns|
    ensures |keys| == |batch.rows|
  {
    seq(|batch.rows|, i requires 0 <= i < |batch.rows| => PyStr(batch.rows[i][k]))
  }

  /** The elements of `s` that do not occur in `t`, in order. */
  function Without(s: seq<string>, t: seq<string>): (r: seq<string>)
    ensures forall x :: x in r <==> x in s && x !in t
    ensures NoDuplicates(s) ==> NoDuplicates(r)
  {
    if s == [] then []
    else if s[0] in t then Without(s[1..], t)
    else [s[0]] + Without(s[1..], t)
  }

  /** The keys of the outer join, in the lexicographic order the join puts them in. */
  function MergedKeys(batchKeys: seq<string>, snapshotKeys: seq<string>): (keys: seq<string>)
    ensures forall x :: x in keys <==> x in batchKeys || x in snapshotKeys
    ensures Sorted(keys)
  {
    var all := snapshotKeys + Without(batchKeys, snapshotKeys);
    var keys := SortStrings(all);
    assert forall x :: x in keys <==> x in all by {
      forall x ensures x in keys <==> x in all {
        assert x in keys <==> x in multiset(keys);
        assert x in all <==> x in multiset(all);
      }
    }
    keys
  }

  // ---------------------------------------------------------------------
  // The per-column rules of the three dispositions of a key: new (import
  // only, `right_only`), continuing (both, `both`), missing (persisted only,
  // `left_only`)

  const NotesSeparator: string := "\n-----\n"

  function AlertHead(stamp: string): string {
    "System Alert (" + stamp + "): Job not in last Excel import."
  }

  const AlertAdvice: string :=
    "Verify if closed (set Status to 'Closed') or if active (re-include in Excel & update status)."

  /** The prior status is quoted when it is set and is not already the sentinel. */
  function PriorStatusClause(priorStatus: Cell): string {
    if Truthy(priorStatus) && priorStatus != Text(ReviewMissingStatus)
    then " Previous status: '" + PyStr(priorStatus) + "'. "
    else ""
  }

  /** The system alert written into a missing job's notes. */
  function MissingAlert(priorStatus: Cell, stamp: string): string {
    AlertHead(stamp) + PriorStatusClause(priorStatus) + AlertAdvice
  }

  /** The prior notes as text: `str(notes)`, or "" when there are none. */
  function NotesText(c: Cell): string {
    if c.Null? then "" else PyStr(c)
  }

  function MissingNotes(priorStatus: Cell, priorNotes: Cell, stamp: string): string {
    Strip(MissingAlert(priorStatus, stamp) + NotesSeparator + NotesText(priorNotes))
  }

  /** A new job: key, imported source fields (missing ones null), status "New", empty notes. */
  function NewJobCell(key: string, cols: seq<string>, row: seq<Cell>, j: nat): Cell
    requires |row| == |cols| && j < ColumnCount
  {
    if j == KeyIndex then Text(key)
    else if j == StatusIndex then Text("New")
    else if j == NotesIndex then Text("")
    else BatchField(cols, row, j).GetOr(Null)
  }

  /** A continuing job: persisted status and notes; each source field refreshed unless the import has none. */
  function ContinuingCell(key: string, cols: seq<string>, row: seq<Cell>, prior: Row, j: nat): Cell
    requires |row| == |cols| && |prior| == ColumnCount && j < ColumnCount
  {
    if j == KeyIndex then Text(key)
    else if j == StatusIndex then (if prior[j].Null? then Text("New") else prior[j])
    else if j == NotesIndex then (if prior[j].Null? then Text("") else prior[j])
    else
      var incoming := BatchField(cols, row, j).GetOr(Null);
      if incoming.Null? then prior[j] else incoming
  }

  /** A missing job: persisted source fields, the sentinel status and an alert prepended to its notes. */
  function MissingCell(key: string, prior: Row, stamp: string, j: nat): Cell
    requires |prior| == ColumnCount && j < ColumnCount
  {
    if j == KeyIndex then Text(key)
    else if j == StatusIndex then Text(ReviewMissingStatus)
    else if j == NotesIndex then Text(MissingNotes(prior[StatusIndex], prior[NotesIndex], stamp))
    else prior[j]
  }

  function NewJobRow(key: string, cols: seq<string>, row: seq<Cell>): (r: Row)
    requires |row| == |cols|
    ensures |r| == ColumnCount
  {
    seq(ColumnCount, j requires 0 <= j < ColumnCount => NewJobCell(key, cols, row, j))
  }

  function ContinuingRow(key: string, cols: seq<string>, row: seq<Cell>, prior: Row): (r: Row)
    requires |row| == |cols| && |prior| == ColumnCount
    ensures |r| == ColumnCount
  {
    seq(ColumnCount, j requires 0 <= j < ColumnCount => ContinuingCell(key, cols, row, prior, j))
  }

  function MissingRow(key: string, prior: Row, stamp: string): (r: Row)
    requires |prior| == ColumnCount
    ensures |r| == ColumnCount
  {
    seq(ColumnCount, j requires 0 <= j < ColumnCount => MissingCell(key, prior, stamp, j))
  }

  /** The output row for one key of the join. */
  function RowForKey(batch: Frame, cols: seq<string>, batchKeys: seq<string>,
                     snapshot: seq<Row>, snapshotKeys: seq<string>, key: string, stamp: string): (r: Row)
    requires WellFormedFrame(batch) && |cols| == |batch.columns| && |batchKeys| == |batch.rows|
    requires IsSnapshot(snapshot) && |snapshotKeys| == |snapshot|
    requires key in batchKeys || key in snapshotKeys
    ensures |r| == ColumnCount && r[KeyIndex] == Text(key)
  {
    match (IndexOf(batchKeys, key), IndexOf(snapshotKeys, key))
    case (Some(b), None) => NewJobRow(key, cols, batch.rows[b])
    case (Some(b), Some(s)) => ContinuingRow(key, cols, batch.rows[b], snapshot[s])
    case (None, Some(s)) => MissingRow(key, snapshot[s], stamp)
  }

  /** The reconciled job rows, or None when the batch has no `Invoice #` column. */
  function Reconcile(batch: Frame, snapshot: seq<Row>, stamp: string): (r: Option<seq<Row>>)
    requires WellFormedFrame(batch) && IsSnapshot(snapshot)
    ensures r.None? <==> KeyColumn !in SanitizeColumns(batch.columns)
    ensures r.Some? ==> IsTable(r.value)
  {
    var cols := SanitizeColumns(batch.columns);
    match IndexOf(cols, KeyColumn)
    case None => None
    case Some(k) => Some(ReconciledRows(batch, k, snapshot, stamp))
  }

  /** One record per merged key, once the key column `k` of the batch is known. */
  function ReconciledRows(batch: Frame, k: nat, snapshot: seq<Row>, stamp: string): seq<Row>
    requires WellFormedFrame(batch) && IsSnapshot(snapshot)
    requires k < |batch.columns| && SanitizeColumns(batch.columns)[k] == KeyColumn
  {
    var cols := SanitizeColumns(batch.columns);
    var batchKeys := BatchKeys(batch, k);
    var snapshotKeys := KeysOf(snapshot);
    var keys := MergedKeys(batchKeys, snapshotKeys);
    seq(|keys|, i requires 0 <= i < |keys| =>
      RowForKey(batch, cols, batchKeys, snapshot, snapshotKeys, keys[i], stamp))
  }

  /** Keys are unique on each side (the join is then one row per key). */
  predicate UniqueKeys(batch: Frame, snapshot: seq<Row>)
    requires WellFormedFrame(batch) && IsSnapshot(snapshot)
  {
    && NoDuplicates(KeysOf(snapshot))
    && match IndexOf(SanitizeColumns(batch.columns), KeyColumn)
       case None => true
       case Some(k) => NoDuplicates(BatchKeys(batch, k))
  }

  // ---------------------------------------------------------------------
  // The procedure

  /** The default the completion step gives a column that a branch left unset. */
  function ColumnDefault(col: string): Cell {
    if col == StatusColumn then Text("New")
    else if col == NotesColumn then Text("")
    else Null
  }

  predicate IsDateColumn(col: string) {
    col == OrderDateColumn || col == TurnInDateColumn
  }

  lemma ColumnNames()
    ensures forall i :: 0 <= i < ColumnCount ==>
      && (ExpectedColumns[i] == KeyColumn <==> i == KeyIndex)
      && (ExpectedColumns[i] == StatusColumn <==> i == StatusIndex)
      && (ExpectedColumns[i] == NotesColumn <==> i == NotesIndex)
    ensures Distinct(ExpectedColumns)
  {
  }

  /** The column-to-value dictionary `entries` holds row `r` under the expected column names. */
  predicate Describes(entries: map<string, Cell>, r: Row)
    requires |r| == ColumnCount
  {
    forall i :: 0 <= i < ColumnCount ==> ExpectedColumns[i] in entries && entries[ExpectedColumns[i]] == r[i]
  }

  /** The dictionary the source builds for a job that only the import has. */
  method NewJobEntries(key: string, cols: seq<string>, row: seq<Cell>) returns (entries: map<string, Cell>)
    requires |row| == |cols|
    ensures Describes(entries, NewJobRow(key, cols, row))
  {
    ColumnNames();
    entries := map[];
    for j := 0 to ColumnCount
      invariant forall i :: 0 <= i < j ==>
        ExpectedColumns[i] in entries && entries[ExpectedColumns[i]] == NewJobCell(key, cols, row, i)
    {
      var col := ExpectedColumns[j];
      if col == KeyColumn {
        entries := entries[col := Text(key)];
      } else if col == StatusColumn {
        entries := entries[col := Text("New")];
      } else if col == NotesColumn {
        entries := entries[col := Text("")];
      } else {
        entries := entries[col := BatchField(cols, row, j).GetOr(Null)];
      }
    }
  }

  /** The dictionary the source builds for a persisted job the import no longer has. */
  method MissingJobEntries(key: string, prior: Row, stamp: string) returns (entries: map<string, Cell>)
    requires |prior| == ColumnCount
    ensures Describes(entries, MissingRow(key, prior, stamp))
  {
    ColumnNames();
    entries := map[];
    var originalStatus := Null;
    var existingNotes := "";
    for j := 0 to ColumnCount
      invariant forall i :: 0 <= i < j ==>
        ExpectedColumns[i] in entries && entries[ExpectedColumns[i]] == (if i == KeyIndex then Text(key) else prior[i])
      invariant j > StatusIndex ==> originalStatus == prior[StatusIndex]
      invariant j > NotesIndex ==> existingNotes == NotesText(prior[NotesIndex])
    {
      var col := ExpectedColumns[j];
      if col == KeyColumn {
        entries := entries[col := Text(key)];
      } else {
        entries := entries[col := prior[j]];
        if col == StatusColumn {
          originalStatus := prior[j];
        }
        if col == NotesColumn {
          existingNotes := NotesText(prior[j]);
        }
      }
    }
    entries := entries[StatusColumn := Text(ReviewMissingStatus)];
    var alert := MissingAlert(originalStatus, stamp);
    var notes := Strip(alert + NotesSeparator + existingNotes);
    assert notes == MissingNotes(prior[StatusIndex], prior[NotesIndex], stamp);
    MissingRowNotes(key, prior, stamp);
    MissingEntriesComplete(entries, key, prior, stamp, notes);
    entries := entries[NotesColumn := Text(notes)];
  }

  lemma MissingRowNotes(key: string, prior: Row, stamp: string)
    requires |prior| == ColumnCount
    ensures MissingRow(key, prior, stamp)[NotesIndex] == Text(MissingNotes(prior[StatusIndex], prior[NotesIndex], stamp))
  {
  }

  lemma MissingEntriesComplete(entries: map<string, Cell>, key: string, prior: Row, stamp: string, notes: string)
    requires |prior| == ColumnCount
    requires forall i :: 0 <= i < ColumnCount && i != StatusIndex ==>
      ExpectedColumns[i] in entries && entries[ExpectedColumns[i]] == (if i == KeyIndex then Text(key) else prior[i])
    requires StatusColumn in entries && entries[StatusColumn] == Text(ReviewMissingStatus)
    requires MissingRow(key, prior, stamp)[NotesIndex] == Text(notes)
    ensures Describes(entries[NotesColumn := Text(notes)], MissingRow(key, prior, stamp))
  {
    ColumnNames();
    var updated := entries[NotesColumn := Text(notes)];
    var r := MissingRow(key, prior, stamp);
    forall i | 0 <= i < ColumnCount
      ensures ExpectedColumns[i] in updated && updated[ExpectedColumns[i]] == r[i]
    {
      if i == NotesIndex {
        assert updated[ExpectedColumns[i]] == Text(notes);
      } else if i == StatusIndex {
        assert r[i] == MissingCell(key, prior, stamp, i);
        assert updated[ExpectedColumns[i]] == entries[StatusColumn];
      } else {
        assert r[i] == MissingCell(key, prior, stamp, i);
        assert updated[ExpectedColumns[i]] == entries[ExpectedColumns[i]];
      }
    }
  }

  /** The dictionary the source builds for a job both sides have. */
  method ContinuingJobEntries(key: string, cols: seq<string>, row: seq<Cell>, prior: Row) returns (entries: map<string, Cell>)
    requires |row| == |cols| && |prior| == ColumnCount
    ensures Describes(entries, ContinuingRow(key, cols, row, prior))
  {
    ColumnNames();
    entries := map[];
    for j := 0 to ColumnCount
      invariant forall i :: 0 <= i < j ==>
        ExpectedColumns[i] in entries && entries[ExpectedColumns[i]] == ContinuingCell(key, cols, row, prior, i)
    {
      var col := ExpectedColumns[j];
      if col == KeyColumn {
        entries := entries[col := Text(key)];
      } else if col == StatusColumn || col == NotesColumn {
        var kept := prior[j];
        entries := entries[col := if !kept.Null? then kept else if col == NotesColumn then Text("") else Text("New")];
      } else {
        var newValue := BatchField(cols, row, j).GetOr(Null);
        var oldValue := prior[j];
        if IsDateColumn(col) {
          entries := entries[col := if !newValue.Null? then newValue else oldValue];
        } else if !newValue.Null? {
          entries := entries[col := newValue];
        } else {
          entries := entries[col := oldValue];
        }
      }
    }
  }

  /** One iteration of the source's loop: the row for one joined key. */
  method ReconcileKey(batch: Frame, cols: seq<string>, batchKeys: seq<string>,
                      snapshot: seq<Row>, snapshotKeys: seq<string>, key: string, stamp: string) returns (out: Row)
    requires WellFormedFrame(batch) && |cols| == |batch.columns| && |batchKeys| == |batch.rows|
    requires IsSnapshot(snapshot) && |snapshotKeys| == |snapshot|
    requires key in batchKeys || key in snapshotKeys
    ensures out == RowForKey(batch, cols, batchKeys, snapshot, snapshotKeys, key, stamp)
  {
    ghost var expected := RowForKey(batch, cols, batchKeys, snapshot, snapshotKeys, key, stamp);
    var inBatch := IndexOf(batchKeys, key);
    var inSnapshot := IndexOf(snapshotKeys, key);
    var current: map<string, Cell> := map[];
    if inBatch.Some? && inSnapshot.None? {
      current := NewJobEntries(key, cols, batch.rows[inBatch.value]);
    } else if inBatch.None? && inSnapshot.Some? {
      current := MissingJobEntries(key, snapshot[inSnapshot.value], stamp);
    } else if inBatch.Some? && inSnapshot.Some? {
      current := ContinuingJobEntries(key, cols, batch.rows[inBatch.value], snapshot[inSnapshot.value]);
    }
    assert Describes(current, expected);
    current := CompleteEntries(current);
    out := seq(ColumnCount, j requires 0 <= j < ColumnCount => current[ExpectedColumns[j]]);
  }

  /**
   * Walks the joined keys in order and, for each, builds the column-to-value
   * dictionary of its disposition, completes any unset column with its
   * default, and appends the dictionary as a row in the expected column order.
   */
  method ProcessData(batch: Frame, snapshot: seq<Row>, stamp: string) returns (result: Option<seq<Row>>)
    requires WellFormedFrame(batch) && IsSnapshot(snapshot)
    requires UniqueKeys(batch, snapshot)
    ensures result == Reconcile(batch, snapshot, stamp)
  {
    var cols := SanitizeColumns(batch.columns);
    var keyPos := IndexOf(cols, KeyColumn);
    if keyPos.None? {
      return None;
    }
    var batchKeys := BatchKeys(batch, keyPos.value);
    var snapshotKeys := KeysOf(snapshot);
    var merged := MergedKeys(batchKeys, snapshotKeys);
    var processed := ReconcileKeys(batch, cols, batchKeys, snapshot, snapshotKeys, merged, stamp);
    result := Some(processed);
  }

  /** The loop over the joined keys, appending one row per key. */
  method ReconcileKeys(batch: Frame, cols: seq<string>, batchKeys: seq<string>,
                       snapshot: seq<Row>, snapshotKeys: seq<string>, merged: seq<string>, stamp: string)
    returns (processed: seq<Row>)
    requires WellFormedFrame(batch) && |cols| == |batch.columns| && |batchKeys| == |batch.rows|
    requires IsSnapshot(snapshot) && |snapshotKeys| == |snapshot|
    requires forall key :: key in merged ==> key in batchKeys || key in snapshotKeys
    ensures processed == seq(|merged|, i requires 0 <= i < |merged| =>
      RowForKey(batch, cols, batchKeys, snapshot, snapshotKeys, merged[i], stamp))
  {
    processed := [];
    var n := 0;
    while n < |merged|
      invariant n <= |merged| && |processed| == n
      invariant forall i :: 0 <= i < n ==>
        processed[i] == RowForKey(batch, cols, batchKeys, snapshot, snapshotKeys, merged[i], stamp)
    {
      var out := ReconcileKey(batch, cols, batchKeys, snapshot, snapshotKeys, merged[n], stamp);
      processed := processed + [out];
      n := n + 1;
    }
  }

  /**
   * The completion step: an expected column the dictionary already holds keeps
   * its value, one still unset gets its default, and every other key stays.
   */
  method CompleteEntries(entries: map<string, Cell>) returns (completed: map<string, Cell>)
    ensures forall c :: c in entries ==> c in completed && completed[c] == entries[c]
    ensures forall i :: 0 <= i < ColumnCount ==>
      && ExpectedColumns[i] in completed
      && completed[ExpectedColumns[i]] ==
           if ExpectedColumns[i] in entries then entries[ExpectedColumns[i]] else ColumnDefault(ExpectedColumns[i])
    ensures forall c :: c in completed ==> c in entries || c in ExpectedColumns
  {
    completed := entries;
    for j := 0 to ColumnCount
      invariant forall c :: c in entries ==> c in completed && completed[c] == entries[c]
      invariant forall i :: 0 <= i < j ==>
        && ExpectedColumns[i] in completed
        && completed[ExpectedColumns[i]] ==
             if ExpectedColumns[i] in entries then entries[ExpectedColumns[i]] else ColumnDefault(ExpectedColumns[i])
      invariant forall c :: c in completed ==> c in entries || c in ExpectedColumns[..j]
    {
      var col := ExpectedColumns[j];
      if col !in completed {
        completed := completed[col := ColumnDefault(col)];
      }
    }
  }
}
