/**
 * What the reconciliation promises, stated over its inputs and outputs:
 * one row per key in the union of both key sets, the field-ownership policy
 * of each disposition, the user-owned columns never taken from an import,
 * re-running the same import leaves imported jobs as they are, and the
 * notes of a missing job gain the newest alert in front.
 */
module ReconcileProperties {
  import opened Wrappers
  import opened PyStrings
  import opened Cells
  import opened Config
  import opened Reconciliation

  // ---------------------------------------------------------------------
  // Helpers about keys

  lemma IndexOfDistinct(s: seq<string>, i: nat)
    requires NoDuplicates(s) && i < |s|
    ensures IndexOf(s, s[i]) == Some(i)
  {
  }

  lemma {:induction false} DistinctConcat(a: seq<string>, b: seq<string>)
    requires NoDuplicates(a) && NoDuplicates(b)
    requires forall x :: x in b ==> x !in a
    ensures NoDuplicates(a + b)
  {
    forall i, j | 0 <= i < j < |a + b| ensures (a + b)[i] != (a + b)[j] {
      if j < |a| {
      } else if i >= |a| {
        assert (a + b)[i] == b[i - |a|] && (a + b)[j] == b[j - |a|];
      } else {
        assert (a + b)[i] == a[i] && (a + b)[j] == b[j - |a|];
        assert b[j - |a|] in b;
      }
    }
  }

  /** The rows of a successful reconciliation carry exactly the joined keys, in order. */
  lemma KeysOfReconciled(batch: Frame, snapshot: seq<Row>, stamp: string, k: nat)
    requires WellFormedFrame(batch) && IsSnapshot(snapshot)
    requires ImportKeyIndex(batch) == Some(k)
    ensures Reconcile(batch, snapshot, stamp).Some?
    ensures KeysOf(Reconcile(batch, snapshot, stamp).value) == MergedKeys(BatchKeys(batch, k), KeysOf(snapshot))
  {
    var cols := SanitizeColumns(batch.columns);
    var bk := BatchKeys(batch, k);
    var sk := KeysOf(snapshot);
    var merged := MergedKeys(bk, sk);
    var rows := Reconcile(batch, snapshot, stamp).value;
    assert rows == seq(|merged|, i requires 0 <= i < |merged| =>
      RowForKey(batch, cols, bk, snapshot, sk, merged[i], stamp));
    forall i | 0 <= i < |merged| ensures KeysOf(rows)[i] == merged[i] {
      assert rows[i][KeyIndex] == Text(merged[i]);
    }
  }

  /** Looking a key of either side up in the result finds the row RowForKey specifies for it. */
  lemma LookupReconciled(batch: Frame, snapshot: seq<Row>, stamp: string, k: nat, x: string)
    requires WellFormedFrame(batch) && IsSnapshot(snapshot)
    requires ImportKeyIndex(batch) == Some(k)
    requires x in BatchKeys(batch, k) || x in KeysOf(snapshot)
    ensures Reconcile(batch, snapshot, stamp).Some?
    ensures Lookup(Reconcile(batch, snapshot, stamp).value, x)
      == Some(RowForKey(batch, SanitizeColumns(batch.columns), BatchKeys(batch, k), snapshot, KeysOf(snapshot), x, stamp))
  {
    var cols := SanitizeColumns(batch.columns);
    var bk := BatchKeys(batch, k);
    var sk := KeysOf(snapshot);
    var merged := MergedKeys(bk, sk);
    var rows := Reconcile(batch, snapshot, stamp).value;
    KeysOfReconciled(batch, snapshot, stamp, k);
    var i := IndexOf(merged, x).value;
    assert rows[i] == RowForKey(batch, cols, bk, snapshot, sk, merged[i], stamp);
  }

  // ---------------------------------------------------------------------
  // Shape of the result

  /**
   * The result has one row per key of the union of both key sets, in
   * sorted order, and no key twice when neither side repeats a key.
   */
  lemma OneRowPerKey(batch: Frame, snapshot: seq<Row>, stamp: string, k: nat)
    requires WellFormedFrame(batch) && IsSnapshot(snapshot)
    requires ImportKeyIndex(batch) == Some(k)
    ensures Reconcile(batch, snapshot, stamp).Some?
    ensures var keys := KeysOf(Reconcile(batch, snapshot, stamp).value);
      && Sorted(keys)
      && (forall x :: x in keys <==> x in BatchKeys(batch, k) || x in KeysOf(snapshot))
      && (UniqueKeys(batch, snapshot) ==> NoDuplicates(keys))
  {
    KeysOfReconciled(batch, snapshot, stamp, k);
    var bk := BatchKeys(batch, k);
    var sk := KeysOf(snapshot);
    if UniqueKeys(batch, snapshot) {
      var rest := Without(bk, sk);
      DistinctConcat(sk, rest);
      SortedDistinct(sk + rest);
    }
  }

  /** Without a key column there is no result at all, not a partial one. */
  lemma NoKeyColumnNoResult(batch: Frame, snapshot: seq<Row>, stamp: string)
    requires WellFormedFrame(batch) && IsSnapshot(snapshot)
    requires forall p :: 0 <= p < |batch.columns| ==> SanitizeColumns(batch.columns)[p] != KeyColumn
    ensures Reconcile(batch, snapshot, stamp) == None
  {
  }

  /** Nothing imported and nothing persisted: an empty table. */
  lemma EmptyMergeEmptyTable(batch: Frame, stamp: string)
    requires WellFormedFrame(batch) && ImportKeyIndex(batch).Some? && batch.rows == []
    ensures Reconcile(batch, [], stamp) == Some([])
  {
    var k := ImportKeyIndex(batch).value;
    var bk := BatchKeys(batch, k);
    assert bk == [];
    assert KeysOf([]) == [];
    assert Without(bk, []) == [];
    assert SortStrings([]) == [];
    assert MergedKeys(bk, []) == [];
    KeysOfReconciled(batch, [], stamp, k);
    var rows := Reconcile(batch, [], stamp).value;
    assert |KeysOf(rows)| == 0;
  }

  /** With the import's dates converted, the result is again a valid persisted record set. */
  lemma ResultIsSnapshot(batch: Frame, snapshot: seq<Row>, stamp: string)
    requires WellFormedFrame(batch) && IsSnapshot(snapshot) && ImportDatesConverted(batch)
    requires ImportKeyIndex(batch).Some?
    ensures Reconcile(batch, snapshot, stamp).Some?
    ensures IsSnapshot(Reconcile(batch, snapshot, stamp).value)
  {
    var k := ImportKeyIndex(batch).value;
    var cols := SanitizeColumns(batch.columns);
    var bk := BatchKeys(batch, k);
    var sk := KeysOf(snapshot);
    var merged := MergedKeys(bk, sk);
    var rows := Reconcile(batch, snapshot, stamp).value;
    forall i | 0 <= i < |rows| ensures IsRecordRow(rows[i]) {
      var x := merged[i];
      assert rows[i] == RowForKey(batch, cols, bk, snapshot, sk, x, stamp);
      match (IndexOf(bk, x), IndexOf(sk, x))
      case (Some(b), None) =>
        assert IsDateCell(ImportedValue(batch, b, OrderDateIndex));
        assert IsDateCell(ImportedValue(batch, b, TurnInDateIndex));
      case (Some(b), Some(s)) =>
        assert IsDateCell(ImportedValue(batch, b, OrderDateIndex));
        assert IsDateCell(ImportedValue(batch, b, TurnInDateIndex));
        assert IsRecordRow(snapshot[s]);
      case (None, Some(s)) =>
        assert IsRecordRow(snapshot[s]);
    }
  }

  // ---------------------------------------------------------------------
  // Field ownership per disposition

  /** A job only the import has: status "New", empty notes, each source field from the import. */
  lemma NewJobPolicy(batch: Frame, snapshot: seq<Row>, stamp: string, k: nat, b: nat)
    requires WellFormedFrame(batch) && IsSnapshot(snapshot) && UniqueKeys(batch, snapshot)
    requires ImportKeyIndex(batch) == Some(k) && b < |batch.rows|
    requires BatchKeys(batch, k)[b] !in KeysOf(snapshot)
    ensures Reconcile(batch, snapshot, stamp).Some?
    ensures var r := Lookup(Reconcile(batch, snapshot, stamp).value, BatchKeys(batch, k)[b]);
      && r.Some?
      && r.value[KeyIndex] == Text(BatchKeys(batch, k)[b])
      && r.value[StatusIndex] == Text("New")
      && r.value[NotesIndex] == Text("")
      && forall j :: 0 <= j < ColumnCount && IsSourceIndex(j) ==> r.value[j] == ImportedValue(batch, b, j)
  {
    var bk := BatchKeys(batch, k);
    IndexOfDistinct(bk, b);
    LookupReconciled(batch, snapshot, stamp, k, bk[b]);
  }

  /**
   * A job both sides have: the persisted status and notes ("New" and "" in
   * place of nothing), and each source field from the import unless the
   * import has nothing there, in which case the persisted value stays.
   */
  lemma ContinuingJobPolicy(batch: Frame, snapshot: seq<Row>, stamp: string, k: nat, b: nat, s: nat)
    requires WellFormedFrame(batch) && IsSnapshot(snapshot) && UniqueKeys(batch, snapshot)
    requires ImportKeyIndex(batch) == Some(k) && b < |batch.rows| && s < |snapshot|
    requires BatchKeys(batch, k)[b] == KeysOf(snapshot)[s]
    ensures Reconcile(batch, snapshot, stamp).Some?
    ensures var r := Lookup(Reconcile(batch, snapshot, stamp).value, BatchKeys(batch, k)[b]);
      var prior := snapshot[s];
      && r.Some?
      && r.value[KeyIndex] == Text(BatchKeys(batch, k)[b])
      && r.value[StatusIndex] == (if prior[StatusIndex].Null? then Text("New") else prior[StatusIndex])
      && r.value[NotesIndex] == (if prior[NotesIndex].Null? then Text("") else prior[NotesIndex])
      && forall j :: 0 <= j < ColumnCount && IsSourceIndex(j) ==>
           r.value[j] == (if ImportedValue(batch, b, j).Null? then prior[j] else ImportedValue(batch, b, j))
  {
    var bk := BatchKeys(batch, k);
    IndexOfDistinct(bk, b);
    IndexOfDistinct(KeysOf(snapshot), s);
    LookupReconciled(batch, snapshot, stamp, k, bk[b]);
  }

  /**
   * A persisted job the import no longer has: every persisted source field
   * kept, the sentinel status, and the alert in front of the prior notes.
   */
  lemma MissingJobPolicy(batch: Frame, snapshot: seq<Row>, stamp: string, k: nat, s: nat)
    requires WellFormedFrame(batch) && IsSnapshot(snapshot) && UniqueKeys(batch, snapshot)
    requires ImportKeyIndex(batch) == Some(k) && s < |snapshot|
    requires KeysOf(snapshot)[s] !in BatchKeys(batch, k)
    ensures Reconcile(batch, snapshot, stamp).Some?
    ensures var r := Lookup(Reconcile(batch, snapshot, stamp).value, KeysOf(snapshot)[s]);
      var prior := snapshot[s];
      && r.Some?
      && r.value[KeyIndex] == Text(KeysOf(snapshot)[s])
      && r.value[StatusIndex] == Text(ReviewMissingStatus)
      && r.value[NotesIndex] == Text(MissingNotes(prior[StatusIndex], prior[NotesIndex], stamp))
      && forall j :: 0 <= j < ColumnCount && IsSourceIndex(j) ==> r.value[j] == prior[j]
  {
    IndexOfDistinct(KeysOf(snapshot), s);
    LookupReconciled(batch, snapshot, stamp, k, KeysOf(snapshot)[s]);
  }

  // ---------------------------------------------------------------------
  // The user-owned columns are never imported

  /** Two imports that differ only in their Status and Notes columns. */
  predicate SameExceptUserColumns(b1: Frame, b2: Frame)
    requires WellFormedFrame(b1) && WellFormedFrame(b2)
  {
    && b1.columns == b2.columns
    && |b1.rows| == |b2.rows|
    && forall i, p :: 0 <= i < |b1.rows| && 0 <= p < |b1.columns|
         && SanitizeColumns(b1.columns)[p] != StatusColumn && SanitizeColumns(b1.columns)[p] != NotesColumn
         ==> b1.rows[i][p] == b2.rows[i][p]
  }

  lemma SourceFieldAgrees(cols: seq<string>, r1: seq<Cell>, r2: seq<Cell>, j: nat)
    requires |r1| == |cols| && |r2| == |cols| && j < ColumnCount && !IsUserIndex(j)
    requires forall p :: 0 <= p < |cols| && cols[p] != StatusColumn && cols[p] != NotesColumn ==> r1[p] == r2[p]
    ensures BatchField(cols, r1, j) == BatchField(cols, r2, j)
  {
    ColumnNames();
  }

  lemma RowsAgreeOnSourceColumns(cols: seq<string>, r1: seq<Cell>, r2: seq<Cell>, key: string, prior: Row, stamp: string)
    requires |r1| == |cols| && |r2| == |cols| && |prior| == ColumnCount
    requires forall p :: 0 <= p < |cols| && cols[p] != StatusColumn && cols[p] != NotesColumn ==> r1[p] == r2[p]
    ensures NewJobRow(key, cols, r1) == NewJobRow(key, cols, r2)
    ensures ContinuingRow(key, cols, r1, prior) == ContinuingRow(key, cols, r2, prior)
  {
    forall j | 0 <= j < ColumnCount && !IsUserIndex(j) {
      SourceFieldAgrees(cols, r1, r2, j);
    }
  }

  lemma BatchKeysAgree(b1: Frame, b2: Frame, k: nat)
    requires WellFormedFrame(b1) && WellFormedFrame(b2) && SameExceptUserColumns(b1, b2)
    requires ImportKeyIndex(b1) == Some(k)
    ensures BatchKeys(b1, k) == BatchKeys(b2, k)
  {
    assert SanitizeColumns(b1.columns)[k] == KeyColumn;
  }

  lemma RowForKeyAgrees(b1: Frame, b2: Frame, snapshot: seq<Row>, stamp: string, k: nat, x: string)
    requires WellFormedFrame(b1) && WellFormedFrame(b2) && IsSnapshot(snapshot) && SameExceptUserColumns(b1, b2)
    requires ImportKeyIndex(b1) == Some(k)
    requires x in BatchKeys(b1, k) || x in KeysOf(snapshot)
    ensures BatchKeys(b1, k) == BatchKeys(b2, k)
    ensures var cols := SanitizeColumns(b1.columns);
      RowForKey(b1, cols, BatchKeys(b1, k), snapshot, KeysOf(snapshot), x, stamp)
        == RowForKey(b2, cols, BatchKeys(b1, k), snapshot, KeysOf(snapshot), x, stamp)
  {
    BatchKeysAgree(b1, b2, k);
    var cols := SanitizeColumns(b1.columns);
    var bk := BatchKeys(b1, k);
    var sk := KeysOf(snapshot);
    match IndexOf(bk, x)
    case None =>
    case Some(b) =>
      assert forall p :: 0 <= p < |cols| && cols[p] != StatusColumn && cols[p] != NotesColumn ==>
        b1.rows[b][p] == b2.rows[b][p];
      var prior := if x in sk then snapshot[IndexOf(sk, x).value] else seq(ColumnCount, _ => Null);
      RowsAgreeOnSourceColumns(cols, b1.rows[b], b2.rows[b], x, prior, stamp);
  }

  /**
   * Whatever an import holds in its Status and Notes columns, the result is
   * the same: those columns can never reach the persisted records.
   */
  lemma UserColumnsNeverImported(b1: Frame, b2: Frame, snapshot: seq<Row>, stamp: string)
    requires WellFormedFrame(b1) && WellFormedFrame(b2) && IsSnapshot(snapshot)
    requires SameExceptUserColumns(b1, b2)
    ensures Reconcile(b1, snapshot, stamp) == Reconcile(b2, snapshot, stamp)
  {
    match ImportKeyIndex(b1)
    case None =>
    case Some(k) =>
      ReconciledRowsAgree(b1, b2, snapshot, stamp, k);
  }

  lemma ReconciledRowsAgree(b1: Frame, b2: Frame, snapshot: seq<Row>, stamp: string, k: nat)
    requires WellFormedFrame(b1) && WellFormedFrame(b2) && IsSnapshot(snapshot) && SameExceptUserColumns(b1, b2)
    requires ImportKeyIndex(b1) == Some(k)
    ensures ReconciledRows(b1, k, snapshot, stamp) == ReconciledRows(b2, k, snapshot, stamp)
  {
    BatchKeysAgree(b1, b2, k);
    RowsAgreeForMergedKeys(b1, b2, snapshot, stamp, k);
  }

  lemma RowsAgreeForMergedKeys(b1: Frame, b2: Frame, snapshot: seq<Row>, stamp: string, k: nat)
    requires WellFormedFrame(b1) && WellFormedFrame(b2) && IsSnapshot(snapshot) && SameExceptUserColumns(b1, b2)
    requires ImportKeyIndex(b1) == Some(k)
    ensures var cols := SanitizeColumns(b1.columns);
      var bk := BatchKeys(b1, k);
      var merged := MergedKeys(bk, KeysOf(snapshot));
      forall i :: 0 <= i < |merged| ==>
        RowForKey(b1, cols, bk, snapshot, KeysOf(snapshot), merged[i], stamp)
          == RowForKey(b2, cols, bk, snapshot, KeysOf(snapshot), merged[i], stamp)
  {
    var merged := MergedKeys(BatchKeys(b1, k), KeysOf(snapshot));
    forall i | 0 <= i < |merged| {
      RowForKeyAgrees(b1, b2, snapshot, stamp, k, merged[i]);
    }
  }

  // ---------------------------------------------------------------------
  // Re-running an import

  /** Merging an import into the record it produced for a new job changes nothing. */
  lemma NewJobRowIsStable(key: string, cols: seq<string>, row: seq<Cell>)
    requires |row| == |cols|
    ensures ContinuingRow(key, cols, row, NewJobRow(key, cols, row)) == NewJobRow(key, cols, row)
  {
  }

  /** Merging an import into the record it produced for a continuing job changes nothing. */
  lemma ContinuingRowIsStable(key: string, cols: seq<string>, row: seq<Cell>, prior: Row)
    requires |row| == |cols| && |prior| == ColumnCount
    ensures ContinuingRow(key, cols, row, ContinuingRow(key, cols, row, prior)) == ContinuingRow(key, cols, row, prior)
  {
  }

  /**
   * Reconciling the same import a second time, against the records the
   * first run produced, leaves every imported job's record exactly as it
   * was: status, notes and every source field.
   */
  lemma RerunKeepsImportedJobs(batch: Frame, snapshot: seq<Row>, stamp1: string, stamp2: string, k: nat, x: string)
    requires WellFormedFrame(batch) && IsSnapshot(snapshot) && UniqueKeys(batch, snapshot)
    requires ImportDatesConverted(batch)
    requires ImportKeyIndex(batch) == Some(k) && x in BatchKeys(batch, k)
    ensures Reconcile(batch, snapshot, stamp1).Some?
    ensures var first := Reconcile(batch, snapshot, stamp1).value;
      && IsSnapshot(first)
      && UniqueKeys(batch, first)
      && Reconcile(batch, first, stamp2).Some?
      && Lookup(Reconcile(batch, first, stamp2).value, x) == Lookup(first, x)
  {
    var cols := SanitizeColumns(batch.columns);
    var bk := BatchKeys(batch, k);
    var sk := KeysOf(snapshot);
    ResultIsSnapshot(batch, snapshot, stamp1);
    OneRowPerKey(batch, snapshot, stamp1, k);
    var first := Reconcile(batch, snapshot, stamp1).value;
    assert UniqueKeys(batch, first);
    LookupReconciled(batch, snapshot, stamp1, k, x);
    var r1 := RowForKey(batch, cols, bk, snapshot, sk, x, stamp1);
    var fk := KeysOf(first);
    assert x in fk;
    LookupReconciled(batch, first, stamp2, k, x);
    var i := IndexOf(fk, x).value;
    assert first[i] == r1;
    var b := IndexOf(bk, x).value;
    assert RowForKey(batch, cols, bk, first, fk, x, stamp2) == ContinuingRow(x, cols, batch.rows[b], r1);
    match IndexOf(sk, x)
    case None =>
      NewJobRowIsStable(x, cols, batch.rows[b]);
    case Some(s) =>
      ContinuingRowIsStable(x, cols, batch.rows[b], snapshot[s]);
  }

  // ---------------------------------------------------------------------
  // The missing-job alert and notes

  /** The prior status is quoted exactly when it is set and is not the sentinel already. */
  lemma AlertQuotesPriorStatus(priorStatus: Cell, stamp: string)
    ensures MissingAlert(priorStatus, stamp) != MissingAlert(Null, stamp)
        <==> Truthy(priorStatus) && priorStatus != Text(ReviewMissingStatus)
    ensures Truthy(priorStatus) && priorStatus != Text(ReviewMissingStatus) ==>
      var quoted := " Previous status: '" + PyStr(priorStatus) + "'. ";
      var at := |AlertHead(stamp)|;
      MissingAlert(priorStatus, stamp)[at..at + |quoted|] == quoted
  {
    var head := AlertHead(stamp);
    var clause := PriorStatusClause(priorStatus);
    assert PriorStatusClause(Null) == "";
    if clause != "" {
      assert |MissingAlert(priorStatus, stamp)| > |MissingAlert(Null, stamp)|;
      assert (head + clause + AlertAdvice)[|head|..|head| + |clause|] == clause;
    }
  }

  lemma AlertShape(priorStatus: Cell, stamp: string)
    ensures var a := MissingAlert(priorStatus, stamp);
      a != [] && !IsSpace(a[0]) && !IsSpace(a[|a| - 1])
  {
    AlertFirstChar(priorStatus, stamp);
    AlertLastChar(priorStatus, stamp);
  }

  lemma AlertFirstChar(priorStatus: Cell, stamp: string)
    ensures MissingAlert(priorStatus, stamp) != [] && MissingAlert(priorStatus, stamp)[0] == 'S'
  {
    HeadStartsWithS(stamp);
    var head := AlertHead(stamp);
    assert MissingAlert(priorStatus, stamp) == head + (PriorStatusClause(priorStatus) + AlertAdvice);
  }

  lemma AlertLastChar(priorStatus: Cell, stamp: string)
    ensures var a := MissingAlert(priorStatus, stamp); a != [] && a[|a| - 1] == '.'
  {
    AdviceEndsWithPeriod();
    var front := AlertHead(stamp) + PriorStatusClause(priorStatus);
    assert MissingAlert(priorStatus, stamp) == front + AlertAdvice;
  }

  lemma HeadStartsWithS(stamp: string)
    ensures AlertHead(stamp) != [] && AlertHead(stamp)[0] == 'S'
  {
    assert AlertHead(stamp) == "System Alert (" + (stamp + "): Job not in last Excel import.");
  }

  lemma AdviceEndsWithPeriod()
    ensures AlertAdvice != [] && AlertAdvice[|AlertAdvice| - 1] == '.'
  {
  }

  /** The newest alert comes first; the prior notes follow the separator, trailing whitespace trimmed. */
  lemma MissingNotesLeadWithAlert(priorStatus: Cell, priorNotes: Cell, stamp: string)
    ensures MissingNotes(priorStatus, priorNotes, stamp)
         == MissingAlert(priorStatus, stamp) + TrimRight(NotesSeparator + NotesText(priorNotes), Spaces)
  {
    AlertShape(priorStatus, stamp);
    NotesAfterVisibleAlert(MissingAlert(priorStatus, stamp), NotesText(priorNotes));
  }

  lemma NotesAfterVisibleAlert(alert: string, notes: string)
    requires alert != [] && !IsSpace(alert[0]) && !IsSpace(alert[|alert| - 1])
    ensures Strip(alert + NotesSeparator + notes) == alert + TrimRight(NotesSeparator + notes, Spaces)
  {
    StripAfterNonSpaceHead(alert, NotesSeparator + notes);
    assert alert + NotesSeparator + notes == alert + (NotesSeparator + notes);
  }

  lemma TrimRightKeepsNonSpaceEnd(s: string)
    requires s != [] && !IsSpace(s[|s| - 1])
    ensures TrimRight(s, Spaces) == s
  {
  }

  /** Prior notes ending in a visible character are kept whole after the separator. */
  lemma MissingNotesKeepPriorNotes(priorStatus: Cell, priorNotes: Cell, stamp: string)
    requires NotesText(priorNotes) != [] && !IsSpace(NotesText(priorNotes)[|NotesText(priorNotes)| - 1])
    ensures MissingNotes(priorStatus, priorNotes, stamp)
         == MissingAlert(priorStatus, stamp) + NotesSeparator + NotesText(priorNotes)
  {
    MissingNotesLeadWithAlert(priorStatus, priorNotes, stamp);
    var s := NotesSeparator + NotesText(priorNotes);
    assert s[|s| - 1] == NotesText(priorNotes)[|NotesText(priorNotes)| - 1];
    TrimRightKeepsNonSpaceEnd(s);
  }

  /** With no prior notes, the separator's trailing newline is stripped away. */
  lemma MissingNotesWithoutPriorNotes(priorStatus: Cell, stamp: string)
    ensures MissingNotes(priorStatus, Null, stamp) == MissingAlert(priorStatus, stamp) + "\n-----"
  {
    MissingNotesLeadWithAlert(priorStatus, Null, stamp);
    SeparatorTrimmed();
  }

  lemma SeparatorTrimmed()
    ensures TrimRight(NotesSeparator + NotesText(Null), Spaces) == "\n-----"
  {
    var s := NotesSeparator + NotesText(Null);
    assert s == "\n-----\n";
    var r := TrimRight(s, Spaces);
    assert IsSpace(s[6]) && !IsSpace(s[5]);
    assert |r| == 6;
    assert r == s[..6] == "\n-----";
  }

  /**
   * A job missing from two imports in a row: the newer alert comes first,
   * does not quote the sentinel, and the first alert and the original notes
   * are kept below it.
   */
  lemma MissingTwice(priorStatus: Cell, priorNotes: Cell, stamp1: string, stamp2: string)
    requires NotesText(priorNotes) != [] && !IsSpace(NotesText(priorNotes)[|NotesText(priorNotes)| - 1])
    ensures var once := MissingNotes(priorStatus, priorNotes, stamp1);
      MissingNotes(Text(ReviewMissingStatus), Text(once), stamp2)
        == MissingAlert(Null, stamp2) + NotesSeparator
           + MissingAlert(priorStatus, stamp1) + NotesSeparator + NotesText(priorNotes)
  {
    var p := NotesText(priorNotes);
    MissingNotesKeepPriorNotes(priorStatus, priorNotes, stamp1);
    var once := MissingNotes(priorStatus, priorNotes, stamp1);
    var front := MissingAlert(priorStatus, stamp1) + NotesSeparator;
    assert once == front + p;
    LastOfConcat(front, p);
    assert NotesText(Text(once)) == once;
    MissingNotesKeepPriorNotes(Text(ReviewMissingStatus), Text(once), stamp2);
    AlertQuotesPriorStatus(Text(ReviewMissingStatus), stamp2);
    assert MissingAlert(Text(ReviewMissingStatus), stamp2) == MissingAlert(Null, stamp2);
    Regroup(MissingAlert(Null, stamp2), NotesSeparator, MissingAlert(priorStatus, stamp1), NotesSeparator, p);
  }

  lemma Regroup(a: string, b: string, c: string, d: string, e: string)
    ensures a + b + (c + d + e) == a + b + c + d + e
  {
  }

  lemma LastOfConcat(a: string, b: string)
    requires b != []
    ensures (a + b)[|a + b| - 1] == b[|b| - 1]
  {
  }
}
