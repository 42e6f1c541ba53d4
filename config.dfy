/**
 * The application-wide schema constants of config.py: the canonical column
 * list and its order, the status enumeration and its sentinel, the currency
 * columns and the preferred column widths with their bounds.
 */
module Config {

  const KeyColumn: string := "Invoice #"
  const OrderDateColumn: string := "Order Date"
  const TurnInDateColumn: string := "Turn in Date"
  const AccountColumn: string := "Account"
  const InvoiceTotalColumn: string := "Invoice Total"
  const BalanceColumn: string := "Balance"
  const SalespersonColumn: string := "Salesperson"
  const CoordinatorColumn: string := "Project Coordinator"
  const StatusColumn: string := "Status"
  const NotesColumn: string := "Notes"

  /** The single source of truth for column names and their order. */
  const ExpectedColumns: seq<string> := [
    KeyColumn, OrderDateColumn, TurnInDateColumn, AccountColumn,
    InvoiceTotalColumn, BalanceColumn, SalespersonColumn, CoordinatorColumn,
    StatusColumn, NotesColumn
  ]

  /** Positions of the columns in ExpectedColumns (and so in every record row). */
  const KeyIndex: nat := 0
  const OrderDateIndex: nat := 1
  const TurnInDateIndex: nat := 2
  const AccountIndex: nat := 3
  const InvoiceTotalIndex: nat := 4
  const BalanceIndex: nat := 5
  const SalespersonIndex: nat := 6
  const CoordinatorIndex: nat := 7
  const StatusIndex: nat := 8
  const NotesIndex: nat := 9
  const ColumnCount: nat := 10

  const ReviewMissingStatus: string := "Review - Missing from Report"

  const AllowedStatus: seq<string> := [
    "Waiting Measure", "Ready to order", "Waiting for materials",
    "Ready to dispatch", "In install", "Done", "Permit",
    "Cancelled/Postponed", "New", "Closed",
    ReviewMissingStatus
  ]

  const CurrencyColumns: seq<string> := [InvoiceTotalColumn, BalanceColumn]

  const PreferredColumnWidths: map<string, int> := map[
    KeyColumn := 80,
    OrderDateColumn := 100,
    TurnInDateColumn := 100,
    AccountColumn := 250,
    InvoiceTotalColumn := 100,
    BalanceColumn := 100,
    SalespersonColumn := 120,
    CoordinatorColumn := 150,
    StatusColumn := 200,
    NotesColumn := 350
  ]

  const MinColumnWidth: int := 20
  const MaxColumnWidth: int := 500

  /** The two date columns (the source's `date_cols_config`). */
  predicate IsDateIndex(j: nat) {
    j == OrderDateIndex || j == TurnInDateIndex
  }

  /** The user-owned columns, never taken from an import. */
  predicate IsUserIndex(j: nat) {
    j == StatusIndex || j == NotesIndex
  }

  /** The source-owned columns: everything but the key and the user-owned ones. */
  predicate IsSourceIndex(j: nat) {
    0 < j < ColumnCount && !IsUserIndex(j)
  }

  /** No column name appears twice. */
  predicate Distinct(s: seq<string>) {
    forall i, j :: 0 <= i < j < |s| ==> s[i] != s[j]
  }

  lemma ExpectedColumnsShape()
    ensures |ExpectedColumns| == ColumnCount == 10
    ensures Distinct(ExpectedColumns)
    ensures ExpectedColumns[KeyIndex] == KeyColumn
    ensures ExpectedColumns[StatusIndex] == StatusColumn && ExpectedColumns[NotesIndex] == NotesColumn
    ensures StatusIndex == ColumnCount - 2 && NotesIndex == ColumnCount - 1
    ensures ExpectedColumns[OrderDateIndex] == OrderDateColumn
    ensures ExpectedColumns[TurnInDateIndex] == TurnInDateColumn
    ensures ExpectedColumns[InvoiceTotalIndex] == InvoiceTotalColumn
    ensures ExpectedColumns[BalanceIndex] == BalanceColumn
    ensures ExpectedColumns[CoordinatorIndex] == CoordinatorColumn
  {
  }

  lemma StatusEnumerationContents()
    ensures ReviewMissingStatus in AllowedStatus
    ensures "New" in AllowedStatus && "Closed" in AllowedStatus
    ensures "Cancelled/Postponed" in AllowedStatus
  {
  }

  lemma CurrencyColumnsAreExpected()
    ensures forall c :: c in CurrencyColumns ==> c in ExpectedColumns
  {
  }

  lemma PreferredWidthsWithinBounds()
    ensures forall c :: c in ExpectedColumns ==> c in PreferredColumnWidths
    ensures forall c :: c in PreferredColumnWidths ==>
      MinColumnWidth <= PreferredColumnWidths[c] <= MaxColumnWidth
  {
  }
}
